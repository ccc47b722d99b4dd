// The Console mutation protocol against an arbitrary server
// (internal/console/client.go, deployments.go, deployment_secrets.go).
module ConsoleClient {
  import opened Basics
  import opened ConsoleLeases
  import opened ConsoleWire
  import opened ConsoleRuns
  import opened ConsoleWorld
  import opened ConsoleReplies

  class Client {
    const script: Script
    // Whether the caller is still waiting at a moment of the run.
    const clock: nat -> bool
    var step: nat
    var wire: seq<Exchange>
    var log: seq<Entry>

    // The wire is what the environment played.
    ghost predicate Valid()
      reads this
    {
      Played(script, step, wire)
    }

    constructor (script: Script, clock: nat -> bool)
      ensures Valid() && this.script == script && this.clock == clock && wire == [] && log == []
    {
      this.script, this.clock, step, wire, log := script, clock, 0, [], [];
    }

    // waitForRetry: the backoff completes unless the caller gives up first.
    method Wait() returns (ok: bool)
      requires Valid()
      modifies this`step
      ensures Valid() && step == old(step) + 1 && ok == clock(old(step))
    {
      ok := clock(step);
      step := step + 1;
    }

    // Retries an idempotent request after a retryable answer, up to three
    // sends; only a caller who gives up makes it fewer.
    method DoJson(req: Request) returns (r: Data, ghost sent: seq<Exchange>)
      requires Valid()
      modifies this`step, this`wire
      ensures Valid() && step >= old(step)
      ensures wire == old(wire) + sent && JsonRun(req, r, sent)
      ensures Persisted(script, clock, old(step), step, req, sent)
      ensures var first := script(old(step), req);
              !first.cancelled && Interpret(req, first.reply).Finish? ==> r == Interpret(req, first.reply).data
    {
      sent := [];
      for attempt := 0 to MAX_RETRIES
        invariant Valid() && step >= old(step)
        invariant wire == old(wire) + sent && |sent| == attempt
        invariant attempt > 0 ==> Idempotent(req.verb)
        invariant attempt > 0 ==> Interpret(req, script(old(step), req).reply).TryAgain?
        invariant attempt == 0 ==> step == old(step)
        invariant forall i :: 0 <= i < |sent| ==> sent[i].request == req
                                                  && Interpret(req, sent[i].attempt.reply).TryAgain?
      {
        var a := script(step, req);
        step := step + 1;
        if a.cancelled {
          assert script(step - 1, req).cancelled;
          return Failed(Other), sent;
        }
        wire := wire + [Exchange(step - 1, req, a)];
        sent := sent + [Exchange(step - 1, req, a)];
        var verdict := Interpret(req, a.reply);
        if verdict.Finish? { return verdict.data, sent; }
        if attempt < MAX_RETRIES - 1 {
          var waited := Wait();
          if !waited {
            assert !clock(step - 1);
            return Failed(Other), sent;
          }
        }
      }
      return Failed(Other), sent;
    }

    method DoData(req: Request, sensitive: bool) returns (r: Data, ghost sent: seq<Exchange>)
      requires Valid()
      modifies this`step, this`wire
      ensures Valid() && step >= old(step)
      ensures wire == old(wire) + sent && DataRun(req, sensitive, r, sent)
      ensures Persisted(script, clock, old(step), step, req, sent)
      ensures var first := script(old(step), req);
              !sensitive && !first.cancelled && Interpret(req, first.reply).Finish? ==>
                r == Interpret(req, first.reply).data
    {
      r, sent := DoJson(req);
      assert JsonRun(req, r, sent);
      if sensitive { r := SanitizedData(r); }
    }

    method Record(action: string, dseq: string, status: Status, error: bool)
      requires Valid()
      modifies this`log
      ensures Valid() && log == old(log) + [Outcome(action, dseq, status, error)]
      ensures LoggedOnce(old(log), log, status.Success? && !error)
    {
      log := log + [Outcome(action, dseq, status, error)];
    }

    // One page of the collection, its leases re-filed.
    method ListDeployments(skip: int, ghost truth: seq<Item>) returns (r: Result<Page>, ghost sent: seq<Exchange>)
      requires Valid()
      modifies this`step, this`wire
      ensures Valid() && step >= old(step)
      ensures wire == old(wire) + sent && PageRun(sent, skip)
      ensures Brought(sent, r) && (skip >= 0 ==> Persisted(script, clock, old(step), step, PageRequest(skip), sent))
      ensures Faithful(script, truth) && skip >= 0 ==>
                r == Ok(PageOf(truth, skip, PAGE_SIZE).(items := Regrouped(PageOf(truth, skip, PAGE_SIZE).items)))
    {
      sent := [];
      if skip < 0 { return Err, sent; }
      var data;
      data, sent := DoData(Request(GET, DeploymentPage(skip, PAGE_SIZE)), false);
      RunLists(skip, data, sent);
      if data.Failed? || !data.body.PageBody? { return Err, sent; }
      var page := data.body.page;
      var items := new Item[|page.items|](i requires 0 <= i < |page.items| => page.items[i]);
      assert items[..] == page.items;
      RegroupLeases(items);
      return Ok(page.(items := items[..])), sent;
    }

    // The whole collection, page by page: the result is read off the wire.
    // `truth` is the list a faithful server would be paging through; nothing is
    // assumed about other servers.
    method ListAllDeployments(ghost truth: seq<Item>)
      returns (r: Result<seq<Item>>, ghost sent: seq<Exchange>)
      requires Valid()
      modifies this`step, this`wire
      ensures Valid() && step >= old(step)
      ensures wire == old(wire) + sent && WalkRun(sent) && r == WalkResult(sent)
      ensures r.Err? ==> WalkStops(script, clock, old(step), step, sent)
      ensures Faithful(script, truth) ==> (r.Ok? <==> |truth| <= MAX_RECORDS)
      ensures Faithful(script, truth) && r.Ok? ==> Deployments(r.value) == Deployments(truth)
    {
      WalkingFromStart();
      FollowsFromStart(truth);
      hide *;
      sent := [];
      var all: seq<Item> := [];
      var pageCount, skip := 0, 0;
      while true
        invariant Valid() && step >= old(step) && wire == old(wire) + sent
        invariant pageCount <= MAX_PAGES && Walking(sent, all, pageCount, skip) && |all| <= MAX_RECORDS
        invariant Faithful(script, truth) ==> Following(truth, all, pageCount, skip)
        invariant skip >= 0
        decreases MAX_PAGES - pageCount
      {
        if pageCount >= MAX_PAGES {
          WalkedTooFar(sent, all, pageCount, skip);
          if Faithful(script, truth) { FollowedTooFar(truth, all, skip); }
          return Err, sent;
        }
        var page; ghost var now, from := [], step;
        page, now := ListDeployments(skip, truth);
        NextPage(script, clock, old(step), from, step, sent, all, pageCount, skip, now, page);
        if Faithful(script, truth) { FollowPage(truth, all, pageCount, skip, page.value); }
        sent := sent + now;
        pageCount := pageCount + 1;
        if page.Err? || |page.value.items| > MAX_RECORDS - |all| { return Err, sent; }
        all := all + page.value.items;
        if !page.value.hasMore { return Ok(all), sent; }
        var jump := if page.value.limit <= 0 then |page.value.items| else page.value.limit;
        var next := page.value.skip + jump;
        AdvanceIs(page.value);
        if jump <= 0 || next <= skip { return Err, sent; }
        skip := next;
      }
    }

    // reconcileCreatedDeployment: look for the one new deployment that carries
    // the submitted hash, in up to five listings; it is not found only when
    // they run out, the caller gives up, or a listing shows several.
    method ReconcileCreated(known: set<string>, hash: string)
      returns (r: Option<string>, ghost walks: seq<seq<Exchange>>)
      requires Valid()
      modifies this`step, this`wire
      ensures Valid() && step >= old(step)
      ensures wire == old(wire) + Flat(walks) && 0 < |walks| <= 5 && LookedFor(walks, known, hash)
      ensures r.Some? ==> FoundOnly(walks, known, hash, r.value) && ValidDSeq(r.value)
      ensures r.None? ==> Unsettled(walks, known, hash, clock, old(step), step)
    {
      walks := [];
      hide WalkResult, Matches, WalkRun;
      for attempt := 0 to MAX_RETRIES + 2
        invariant Valid() && step >= old(step)
        invariant wire == old(wire) + Flat(walks) && |walks| == attempt
        invariant forall k :: 0 <= k < |walks| ==> WalkRun(walks[k])
        invariant forall k :: 0 <= k < |walks| ==>
                    WalkResult(walks[k]).Err? || NoneNew(WalkResult(walks[k]).value, known, hash)
      {
        var items; ghost var now;
        items, now := ListAllDeployments([]);
        ghost var before := walks;
        walks := walks + [now];
        assert walks[..|walks| - 1] == before;
        if items.Ok? {
          var matches := FreshMatches(items.value, known, hash);
          if |matches| == 1 {
            MatchIsValid(items.value[matches[0]], known, hash);
            return Some(items.value[matches[0]].deployment.dseq), walks;
          }
          if |matches| > 1 {
            assert matches[0] < matches[1];
            return None, walks;
          }
          assert NoneNew(items.value, known, hash);
        }
        if attempt < MAX_RETRIES + 1 {
          var waited := Wait();
          if !waited {
            assert !clock(step - 1);
            return None, walks;
          }
        }
      }
      return None, walks;
    }

    // The one submission of a create, and how its answer is classified.
    method Submit(sensitive: bool) returns (r: Submission, ghost sent: seq<Exchange>)
      requires Valid()
      modifies this`step, this`wire
      ensures Valid() && step >= old(step)
      ensures wire == old(wire) + sent && Count(sent, POST) == |sent| <= 1 && AllVerb(sent, POST)
      ensures sent == [] ==> GaveUp(script, clock, old(step), step, Request(POST, NewDeployment))
      ensures r.Accepted? ==> ValidCreated(r.created) && Acknowledged(sent, r.created)
      ensures !r.Accepted? ==> forall c :: !Acknowledged(sent, c)
      ensures r.Refused? && AllHonest(sent) ==> NothingCreated(sent)
      ensures r.Unknown? ==> Unrefused(sent)
    {
      var req := Request(POST, NewDeployment);
      var data;
      data, sent := DoData(req, sensitive);
      RunSendsAtMost(req, sensitive, data, sent, POST);
      if data.Got? && data.body.CreatedBody? && ValidCreated(data.body.result) {
        AcknowledgedBy(sensitive, sent, data);
        return Accepted(data.body.result), sent;
      }
      forall c ensures !Acknowledged(sent, c) { UnacknowledgedBy(sensitive, sent, data, c); }
      if data.Failed? && Definitive(data.failure) {
        if AllHonest(sent) { DefinitiveCreatesNothing(sensitive, data, sent); }
        return Refused, sent;
      }
      UndecidedIsUnrefused(req, sensitive, data, sent);
      return Unknown, sent;
    }

    // The end of an ambiguous create: what the read-backs say, recorded.
    method SettleUnknown(known: set<string>, prepared: Artifacts)
      returns (r: Result<Created>, ghost walks: seq<seq<Exchange>>)
      requires Valid()
      modifies this
      ensures Valid() && step >= old(step)
      ensures wire == old(wire) + Flat(walks) && 0 < |walks| <= 5
              && LookedFor(walks, known, prepared.hash)
      ensures LoggedOnce(old(log), log, r.Ok?)
      ensures r.Ok? ==> && FoundOnly(walks, known, prepared.hash, r.value.dseq) && ValidDSeq(r.value.dseq)
                        && r.value == Created(r.value.dseq, prepared.manifest, None)
      ensures r.Err? ==> Unsettled(walks, known, prepared.hash, clock, old(step), step)
      ensures log == old(log) + [if r.Ok? then Outcome("create-deployment", r.value.dseq, Success, false)
                                 else Outcome("create-deployment", "", Pending, true)]
    {
      hide LookedFor, FoundOnly, Unsettled;
      var found;
      found, walks := ReconcileCreated(known, prepared.hash);
      if found.Some? {
        Record("create-deployment", found.value, Success, false);
        return Ok(Created(found.value, prepared.manifest, None)), walks;
      }
      Record("create-deployment", "", Pending, true);
      return Err, walks;
    }

    // The submission of a create and, when its outcome is unknown, the
    // read-backs; one entry is logged.
    method SubmitAndSettle(known: set<string>, prepared: Artifacts)
      returns (r: Result<Created>, ghost post: seq<Exchange>, ghost walks: seq<seq<Exchange>>)
      requires Valid()
      modifies this
      ensures Valid() && step >= old(step) && LoggedOnce(old(log), log, r.Ok?)
      ensures wire == old(wire) + post + Flat(walks) && Count(post, POST) == |post| <= 1
      ensures walks != [] ==> LookedFor(walks, known, prepared.hash)
      ensures post == [] ==> GaveUp(script, clock, old(step), step, Request(POST, NewDeployment))
      ensures (exists c :: Acknowledged(post, c)) <==> walks == [] && r.Ok?
      ensures r.Ok? ==> Obtained(r.value, post, walks, known, prepared)
      ensures r.Err? && walks != [] ==> Unsettled(walks, known, prepared.hash, clock, old(step), step)
      ensures LoggedCreate(log[|old(log)|], r, post, walks)
    {
      var submitted;
      submitted, post := Submit(false);
      walks := [];
      assert Flat([]) == [] && wire == old(wire) + post + [];
      hide Count, ValidDSeq, FoundOnly, LookedFor, Unsettled, AllHonest, NothingCreated, Unrefused, Acknowledged,
        Played, Flat;
      match submitted {
        case Accepted(out) =>
          Record("create-deployment", out.dseq, Success, false);
          r := Ok(WithManifest(out, prepared.manifest));
        case Refused =>
          Record("create-deployment", "", FailedStatus, true);
          r := Err;
        case Unknown =>
          ghost var from := step;
          r, walks := SettleUnknown(known, prepared);
          if r.Err? { UnsettledWithin(walks, known, prepared.hash, clock, from, step, old(step)); }
      }
    }

    // CreateDeployment without options. `prepared` is what the SDL library
    // derives from the document; `unsealed` says it holds secret references.
    // On the wire: the listing that is the snapshot, then the submission, then
    // the read-backs.
    method CreateDeployment(prepared: Option<Artifacts>, unsealed: bool)
      returns (r: Result<Created>, ghost listing: seq<Exchange>, ghost post: seq<Exchange>,
               ghost walks: seq<seq<Exchange>>)
      requires Valid()
      modifies this
      ensures Valid() && LoggedOnce(old(log), log, r.Ok?)
      ensures wire == old(wire) + listing + post + Flat(walks) && WalkRun(listing)
      ensures Count(listing + post + Flat(walks), POST) == |post| <= 1
      ensures prepared.None? || unsealed ==> listing == [] && post == [] && walks == []
      ensures prepared.Some? && !unsealed && WalkResult(listing).Err? ==>
                WalkStops(script, clock, old(step), step, listing)
      ensures post != [] || walks != [] || r.Ok? ==> prepared.Some? && WalkResult(listing).Ok?
      ensures prepared.Some? && !unsealed && WalkResult(listing).Ok? && post == [] ==>
                GaveUp(script, clock, old(step), step, Request(POST, NewDeployment))
      ensures (exists c :: Acknowledged(post, c)) <==> walks == [] && r.Ok?
      ensures walks != [] ==> LookedFor(walks, Known(WalkResult(listing).value), prepared.value.hash)
      ensures r.Ok? ==> Obtained(r.value, post, walks, Known(WalkResult(listing).value), prepared.value)
      ensures r.Err? && walks != [] ==>
                Unsettled(walks, Known(WalkResult(listing).value), prepared.value.hash, clock, old(step), step)
      ensures forall world :: walks != [] && Uncontended(world, listing, post, walks, prepared.value.hash) ==>
                Worth(r, post, walks, prepared.value.hash)
      ensures LoggedCreate(log[|old(log)|], r, post, walks)
    {
      NothingDone();
      hide *;
      listing, post, walks := [], [], [];
      if prepared.None? || unsealed {
        Record("create-deployment", "", FailedStatus, true);
        return Err, listing, post, walks;
      }
      var before;
      before, listing := ListAllDeployments([]);
      CreateSends(listing, [], []);
      if before.Err? {
        Record("create-deployment", "", FailedStatus, true);
        return Err, listing, post, walks;
      }
      ghost var from := step;
      r, post, walks := SubmitAndSettle(Known(before.value), prepared.value);
      LookedOnlyAtWalks(walks, Known(before.value), prepared.value.hash);
      CreateSends(listing, post, walks);
      if post == [] { GaveUpWithin(script, clock, from, step, old(step), Request(POST, NewDeployment)); }
      if r.Err? && walks != [] {
        UnsettledWithin(walks, Known(before.value), prepared.value.hash, clock, from, step, old(step));
        UnsettledFoundNone(walks, Known(before.value), prepared.value.hash, clock, old(step), step);
      }
      forall world | walks != [] && Uncontended(world, listing, post, walks, prepared.value.hash)
        ensures Worth(r, post, walks, prepared.value.hash)
      {
        ObtainedIsFound(r, post, walks, Known(before.value), prepared.value);
        PlayedWire(this, old(wire), listing, post, walks);
        CreateIsWorth(world, script, step, old(wire), listing, post, walks, prepared.value.hash, r);
      }
    }

    // createDeploymentWithSecrets: one submission, no reconciliation.
    method CreateWithSecrets(wellFormed: bool) returns (r: Result<Created>, ghost sent: seq<Exchange>)
      requires Valid()
      modifies this
      ensures Valid() && wire == old(wire) + sent && LoggedOnce(old(log), log, r.Ok?)
      ensures Count(sent, POST) <= 1 && (!wellFormed ==> sent == [])
      ensures Count(sent, POST) == 1 ==> KeyShown(sent)
      ensures KeyShown(sent) && Count(sent, POST) == 0 ==>
                GaveUp(script, clock, old(step), step, Request(POST, NewDeployment))
      ensures wellFormed && !KeyShown(sent) ==>
                Persisted(script, clock, old(step), step, Request(GET, SecretsContext), sent)
      ensures r.Ok? ==> ValidDSeq(r.value.dseq) && Acknowledged(sent, r.value)
      ensures log[|old(log)|].status.FailedStatus? && AllHonest(sent) ==> NothingCreated(sent)
      ensures log[|old(log)|].status.Pending? ==> Unrefused(sent)
    {
      sent := [];
      NothingSealed();
      hide *;
      if !wellFormed {
        Record("create-deployment", "", Success, true);
        return Err, sent;
      }
      var sealed; ghost var key;
      sealed, key := SealSecrets();
      sent := key;
      ReadsCreateNothing(key, POST);
      if !sealed {
        Record("create-deployment", "", Success, true);
        return Err, sent;
      }
      var submitted; ghost var post, from := [], step;
      submitted, post := Submit(true);
      sent := key + post;
      SubmittedAfter(key, post);
      KeyShownFirst(key, post, POST);
      if post == [] { GaveUpWithin(script, clock, from, step, old(step), Request(POST, NewDeployment)); }
      match submitted {
        case Accepted(out) =>
          AcknowledgedLater(key, post, out);
          Record("create-deployment", out.dseq, Success, false);
          return Ok(out), sent;
        case Refused => Record("create-deployment", "", Success, true);
        case Unknown => Record("create-deployment", "", Pending, true);
      }
      return Err, sent;
    }

    method SealSecrets() returns (ok: bool, ghost sent: seq<Exchange>)
      requires Valid()
      modifies this`step, this`wire
      ensures Valid() && step >= old(step) && wire == old(wire) + sent && ReadOnly(sent)
      ensures ok <==> KeyShown(sent)
      ensures Persisted(script, clock, old(step), step, Request(GET, SecretsContext), sent)
    {
      var data;
      data, sent := DoData(Request(GET, SecretsContext), true);
      RunKeys(data, sent);
      RunSendsAtMost(Request(GET, SecretsContext), true, data, sent, GET);
      ok := data.Got? && data.body.KeyBody? && data.body.usable;
    }

    method GetDeployment(dseq: string, sensitive: bool) returns (r: Result<Detail>, ghost sent: seq<Exchange>)
      requires Valid()
      modifies this`step, this`wire
      ensures Valid() && step >= old(step) && wire == old(wire) + sent && ReadOnly(sent)
      ensures ShownLast(sent, if r.Ok? then Some(r.value) else None)
      ensures ValidDSeq(dseq) ==> ReadRun(script, clock, old(step), step, dseq, sent)
    {
      sent := [];
      if !ValidDSeq(dseq) { return Err, sent; }
      var req := Request(GET, OneDeployment(dseq));
      var data;
      data, sent := DoData(req, sensitive);
      RunSendsAtMost(req, sensitive, data, sent, GET);
      RunShows(req, sensitive, data, sent);
      if data.Failed? || !data.body.DetailBody? { return Err, sent; }
      return Ok(data.body.detail), sent;
    }

    // The PUT itself, retried as an idempotent request.
    method SendPut(dseq: string, hash: string, sensitive: bool)
      returns (r: Result<Detail>, transient: bool, ghost sent: seq<Exchange>)
      requires Valid()
      modifies this`step, this`wire
      ensures Valid() && step >= old(step) && wire == old(wire) + sent
      ensures Updating(sent, 1, dseq, hash, r)
      ensures RoundTried(script, clock, old(step), step, dseq, sensitive, sent, transient)
    {
      var req := Request(PUT, OneDeployment(dseq));
      var data;
      data, sent := DoData(req, sensitive);
      PutIsRound(script, clock, old(step), step, dseq, hash, sensitive, data, sent);
      transient := data.Failed? && Transient(data.failure);
      hide Updating, RoundTried, DataRun, Persisted, Played;
      r := Err;
      if data.Got? && data.body.DetailBody? && data.body.detail.deployment.dseq == dseq
         && data.body.detail.deployment.hash == hash {
        r := Ok(data.body.detail);
      }
    }

    // One PUT and, unless it was acknowledged, its read-back. Nothing is sent
    // after a reply that shows the wanted version, and that is the result.
    method PutOnce(dseq: string, hash: string, sensitive: bool)
      returns (r: Result<Detail>, transient: bool, ghost sent: seq<Exchange>)
      requires Valid()
      modifies this`step, this`wire
      ensures Valid() && step >= old(step) && wire == old(wire) + sent
      ensures Updating(sent, 1, dseq, hash, r)
      ensures RoundTried(script, clock, old(step), step, dseq, sensitive, sent, transient)
    {
      hide *;
      ghost var put;
      r, transient, put := SendPut(dseq, hash, sensitive);
      sent := put;
      if r.Ok? { return; }
      ghost var get, middle := [], step;
      var detail;
      detail, get := GetDeployment(dseq, sensitive);
      ReadBackIsRound(script, clock, old(step), middle, step, dseq, hash, sensitive, put, transient, get, detail);
      sent := put + get;
      r := if detail.Ok? && detail.value.deployment.dseq == dseq
        && detail.value.deployment.hash == hash then detail else Err;
    }

    // The rounds of an update: a transient failure is tried again.
    method TryUpdate(dseq: string, hash: string, sensitive: bool)
      returns (r: Result<Detail>, ghost sent: seq<Exchange>)
      requires Valid()
      modifies this`step, this`wire
      ensures Valid() && step >= old(step) && wire == old(wire) + sent
      ensures Updating(sent, MAX_RETRIES, dseq, hash, r)
      ensures r.Err? ==> TriedEnough(script, clock, old(step), step, dseq, sensitive, sent)
    {
      sent := [];
      UpdatingFromStart(dseq, hash, sensitive);
      assert MAX_RETRIES > 0;
      hide *;
      var attempt := 0;
      while true
        invariant Valid() && step >= old(step) && wire == old(wire) + sent && attempt < MAX_RETRIES
        invariant Rounds(sent, attempt, dseq, hash, sensitive)
        decreases MAX_RETRIES - attempt
      {
        var transient; ghost var round, from := [], step;
        r, transient, round := PutOnce(dseq, hash, sensitive);
        NextRound(script, clock, old(step), from, step, sent, attempt, round, dseq, hash, sensitive, r, transient);
        sent := sent + round;
        attempt := attempt + 1;
        if r.Ok? || !transient || attempt == MAX_RETRIES { return; }
        var waited := Wait();
        if !waited {
          GaveUpWaiting(script, clock, step - 1, old(step), step, dseq, sensitive, sent);
          return;
        }
      }
    }

    // updateDeploymentSDL: an idempotent PUT, not repeated once a reply shows the
    // wanted version; success is exactly such a reply.
    method UpdateDeployment(dseq: string, hash: string, sensitive: bool)
      returns (r: Result<Detail>, ghost sent: seq<Exchange>)
      requires Valid()
      modifies this
      ensures Valid() && wire == old(wire) + sent && LoggedOnce(old(log), log, r.Ok?)
      ensures Updating(sent, MAX_RETRIES, dseq, hash, r)
      ensures r.Err? ==> TriedEnough(script, clock, old(step), step, dseq, sensitive, sent)
    {
      hide *;
      r, sent := TryUpdate(dseq, hash, sensitive);
      Record("update-deployment", dseq, Success, r.Err?);
    }

    method ReadLeases(requested: seq<LeaseRequest>) returns (r: Result<Detail>, ghost sent: seq<Exchange>)
      requires Valid()
      modifies this`step, this`wire
      ensures Valid() && step >= old(step) && wire == old(wire) + sent && ReadOnly(sent)
      ensures EndsAt(sent, Leasing(requested), r)
      ensures Readable(requested) ==> ReadRun(script, clock, old(step), step, requested[0].dseq, sent)
    {
      sent := [];
      LeaseEnds([], None, requested);
      assert ValidDSeq("") == false;
      hide LeasesActive, Played, EndsAt, ShownLast, ValidDSeq, ReadRun;
      if requested == [] || requested[0].dseq == "" { return Err, sent; }
      if exists i :: 0 < i < |requested| && requested[i].dseq != requested[0].dseq { return Err, sent; }
      var detail;
      detail, sent := GetDeployment(requested[0].dseq, false);
      LeaseEnds(sent, if detail.Ok? then Some(detail.value) else None, requested);
      if detail.Err? { return Err, sent; }
      var active := RequestedLeasesActive(detail.value.leases, requested);
      if !active { return Err, sent; }
      return detail, sent;
    }

    // Reads until a reply shows the leases or the window is over.
    method PollLeases(requested: seq<LeaseRequest>, polls: nat)
      returns (r: Result<Detail>, ghost looks: seq<seq<Exchange>>)
      requires Valid()
      modifies this`step, this`wire
      ensures Valid() && step >= old(step) && wire == old(wire) + Flat(looks)
      ensures ReadBack(script, clock, old(step), step, requested, looks) && (r.Err? ==> |looks| == polls)
      ensures EndsAt(Flat(looks), Leasing(requested), r)
    {
      looks := [];
      assert EndsAt(Flat([]), Leasing(requested), Err) && ReadBack(script, clock, step, step, requested, []);
      hide EndsAt, Played, Leasing, ReadBack, Readable, ReadRun, ReadOnly, Flat;
      for poll := 0 to polls
        invariant Valid() && step >= old(step) && wire == old(wire) + Flat(looks) && |looks| == poll
        invariant ReadBack(script, clock, old(step), step, requested, looks)
        invariant EndsAt(Flat(looks), Leasing(requested), Err)
      {
        ghost var get, from := [], step;
        r, get := ReadLeases(requested);
        ReadBackExtends(script, clock, old(step), from, step, requested, looks, get);
        EndsLater(Flat(looks), get, Leasing(requested), r);
        looks := looks + [get];
        if r.Ok? { return; }
      }
      r := Err;
    }

    // The submission of a lease and its resolution: the active leases a reply
    // shows, or the status to record for the failure. `polls` is how many
    // further observations the reconciliation window admits.
    method SubmitLease(hasManifest: bool, leases: seq<LeaseRequest>, polls: nat)
      returns (r: Result<Detail>, status: Status, ghost post: seq<Exchange>, ghost looks: seq<seq<Exchange>>)
      requires Valid()
      modifies this`step, this`wire
      ensures Valid() && step >= old(step) && wire == old(wire) + post + Flat(looks)
      ensures Count(post + Flat(looks), POST) == |post| <= 1
      ensures ReadBack(script, clock, old(step), step, leases, looks)
      ensures EndsAt(post + Flat(looks), Leasing(leases), r)
      ensures post == [] ==> GaveUp(script, clock, old(step), step, Request(POST, NewLease))
      ensures r.Err? ==> |looks| == LooksWanted(post, hasManifest, polls) && LeaseStatus(status, post)
    {
      var req := Request(POST, NewLease);
      var data;
      data, post := DoData(req, !hasManifest);
      SubmittedLease(script, clock, step, !hasManifest, leases, data, post);
      ghost var middle := step;
      assert post == [] ==> GaveUp(script, clock, old(step), middle, req);
      LeaseVerdict(!hasManifest, post);
      looks := [];
      hide Count, LeasesActive, DataRun, Persisted, ReadBack, LeaseStatus, EndsAt, Played, Leasing, Flat, FailureOf,
        Definitive, LeaseCoded, GaveUp;
      if data.Got? && data.body.DetailBody? {
        var active := RequestedLeasesActive(data.body.detail.leases, leases);
        if active { return Ok(data.body.detail), Success, post, looks; }
      }
      var failure := if data.Failed? then data.failure else Other;
      r := Err;
      // A lease code, or any failure without a manifest, is not looked into.
      if LeaseCoded(failure) { return Err, FailedStatus, post, looks; }
      status := if Definitive(failure) then FailedStatus else Pending;
      if !hasManifest { return Err, status, post, looks; }
      r, looks := PollLeases(leases, if Definitive(failure) then 1 else polls + 1);
      LookedInto(script, clock, middle, step, old(step), leases, post, looks, r);
      if post == [] { GaveUpUntil(script, clock, old(step), middle, step, req); }
    }

    method CreateLease(hasManifest: bool, leases: seq<LeaseRequest>, polls: nat)
      returns (r: Result<Detail>, ghost post: seq<Exchange>, ghost looks: seq<seq<Exchange>>)
      requires Valid()
      modifies this
      ensures Valid() && wire == old(wire) + post + Flat(looks)
      ensures Count(post + Flat(looks), POST) == |post| <= 1
      ensures ReadBack(script, clock, old(step), step, leases, looks)
      ensures EndsAt(post + Flat(looks), Leasing(leases), r)
      ensures if forall i :: 0 <= i < |leases| ==> ValidDSeq(leases[i].dseq) then
                && LoggedOnce(old(log), log, r.Ok?)
                && (post == [] ==> GaveUp(script, clock, old(step), step, Request(POST, NewLease)))
                && (r.Err? ==>
                      |looks| == LooksWanted(post, hasManifest, polls) && LeaseStatus(log[|old(log)|].status, post))
              else r.Err? && log == old(log) && post == [] && looks == []
    {
      post, looks := [], [];
      NoLease(script, clock, step, leases);
      hide EndsAt, Played, ReadBack, Count, Refusal, NamesLeaseCode, Flat, LooksWanted, Leasing, GaveUp;
      if exists i :: 0 <= i < |leases| && !ValidDSeq(leases[i].dseq) { return Err, post, looks; }
      var dseq := if leases == [] then "" else leases[0].dseq;
      var status;
      r, status, post, looks := SubmitLease(hasManifest, leases, polls);
      if r.Ok? {
        Record("create-lease", dseq, Success, false);
      } else {
        Record("create-lease", dseq, status, true);
      }
    }

    // What comes before the PATCH: the refusals that need no server, and the
    // sealing key for anything but a rename.
    method PreparePatch(renameOnly: bool, guard: string, current: Detail, applies: bool)
      returns (ok: bool, ghost sent: seq<Exchange>)
      requires Valid()
      modifies this`step, this`wire
      ensures Valid() && step >= old(step) && wire == old(wire) + sent && ReadOnly(sent)
      ensures ok <==> PatchReady(renameOnly, guard, current, applies, KeyShown(sent))
      ensures !renameOnly && !ok && PatchReady(false, guard, current, applies, true) ==>
                Persisted(script, clock, old(step), step, Request(GET, SecretsContext), sent)
    {
      sent := [];
      assert !KeyShown([]);
      hide Played, KeyShown, Persisted;
      if renameOnly { return guard == "", sent; }
      if current.definition.None? || current.definition.value.sdl == ""
         || current.definition.value.manifestVersion == "" || !applies {
        return false, sent;
      }
      ok, sent := SealSecrets();
    }

    // patchDeploymentDefinition. `edits` says the patch assigns service
    // fields, `applies` that it applies to the saved definition. Success is
    // exactly an answer to the PATCH that acknowledges the whole edit.
    method PatchDefinition(dseq: string, edits: bool, name: Option<string>, secrets: bool, guard: string,
                           current: Detail, applies: bool)
      returns (r: Result<Detail>, ghost sent: seq<Exchange>)
      requires Valid()
      modifies this
      ensures Valid() && wire == old(wire) + sent && LoggedOnce(old(log), log, r.Ok?)
      ensures Count(sent, PATCH) <= 1 && Count(sent, POST) == 0
      ensures EndsAt(sent, Patching(dseq, if edits || secrets then None else name), r)
      ensures var renameOnly := !edits && !secrets && name.Some?;
              && PatchOutcome(script, clock, old(step), step, dseq,
                   PatchReady(renameOnly, guard, current, applies, KeyShown(sent)), sent, r, log[|old(log)|].status)
              && (!renameOnly && PatchReady(false, guard, current, applies, true) && !KeyShown(sent) ==>
                    Persisted(script, clock, old(step), step, Request(GET, SecretsContext), sent))
    {
      hide *;
      var rename := if edits || secrets then None else name;
      var ready; ghost var key;
      ready, key := PreparePatch(rename.Some?, guard, current, applies);
      sent := key;
      if !ready {
        ReadsPatchNothing(key, dseq, rename);
        PatchWithheld(script, clock, old(step), step, dseq, key);
        Record("update-deployment", dseq, Success, true);
        return Err, sent;
      }
      ReadyMeansKey(rename.Some?, guard, current, applies, KeyShown(key));
      ghost var from := step;
      var status; ghost var patch;
      r, status, patch := SendPatch(dseq, rename);
      PatchAfterReads(key, patch, dseq, rename, r);
      PatchSent(script, clock, old(step), from, step, dseq, key, patch, r, status);
      sent := key + patch;
      Record("update-deployment", dseq, status, r.Err?);
    }

    // The one PATCH and what its answer amounts to.
    method SendPatch(dseq: string, rename: Option<string>)
      returns (r: Result<Detail>, status: Status, ghost sent: seq<Exchange>)
      requires Valid()
      modifies this`step, this`wire
      ensures Valid() && step >= old(step) && wire == old(wire) + sent
      ensures AllVerb(sent, PATCH) && |sent| <= 1 && EndsAt(sent, Patching(dseq, rename), r)
      ensures r.Ok? ==> status.Success?
      ensures r.Err? ==> status == if sent != [] && Refusal(sent[0].attempt.reply) then Success else Pending
      ensures sent == [] ==> r.Err? && GaveUp(script, clock, old(step), step, Request(PATCH, OneDeployment(dseq)))
    {
      var req := Request(PATCH, OneDeployment(dseq));
      var data;
      data, sent := DoData(req, true);
      RunSendsAtMost(req, true, data, sent, PATCH);
      RunShows(req, true, data, sent);
      assert forall i :: 0 <= i < |sent| ==> sent[i].request == req;
      PatchEnds(sent, ShownIn(data), dseq, rename);
      assert sent == [] ==> ShownIn(data).None?;
      hide Count, DataRun, ShownLast, EndsAt, Played;
      r := Err;
      status := if data.Failed? && Definitive(data.failure) then Success else Pending;
      if data.Got? && data.body.DetailBody? {
        var detail := data.body.detail;
        if detail.deployment.dseq == dseq
           && (if rename.Some? then detail.name == rename
               else detail.manifestVersion != "" && detail.deployment.hash == detail.manifestVersion) {
          r, status := Ok(detail), Success;
        }
      }
    }
  }

  method FreshMatches(items: seq<Item>, known: set<string>, hash: string) returns (matches: seq<nat>)
    ensures forall k :: 0 <= k < |matches| ==> matches[k] < |items| && Matches(items[matches[k]], known, hash)
    ensures forall i :: 0 <= i < |items| && Matches(items[i], known, hash) ==> i in matches
    ensures forall k, l :: 0 <= k < l < |matches| ==> matches[k] < matches[l]
  {
    matches := [];
    for i := 0 to |items|
      invariant forall k :: 0 <= k < |matches| ==> matches[k] < i && Matches(items[matches[k]], known, hash)
      invariant forall k, l :: 0 <= k < l < |matches| ==> matches[k] < matches[l]
      invariant forall j :: 0 <= j < i && Matches(items[j], known, hash) ==> j in matches
    {
      if Matches(items[i], known, hash) { matches := matches + [i]; }
    }
  }

  lemma LookedOnlyAtWalks(walks: seq<seq<Exchange>>, known: set<string>, hash: string)
    requires walks != [] ==> LookedFor(walks, known, hash)
    ensures forall k :: 0 <= k < |walks| ==> WalkRun(walks[k])
  {
  }

  lemma UnsettledFoundNone(walks: seq<seq<Exchange>>, known: set<string>, hash: string, clock: nat -> bool, from: nat,
                           to: nat)
    requires Unsettled(walks, known, hash, clock, from, to)
    ensures forall d :: !FoundOnly(walks, known, hash, d)
  {
    hide Matches, WalkResult;
  }

  lemma ObtainedIsFound(r: Result<Created>, post: seq<Exchange>, walks: seq<seq<Exchange>>, known: set<string>,
                        prepared: Artifacts)
    requires walks != [] && (r.Ok? ==> Obtained(r.value, post, walks, known, prepared))
    ensures r.Ok? ==> FoundOnly(walks, known, prepared.hash, r.value.dseq)
  {
  }

  lemma PlayedWire(client: Client, before: seq<Exchange>, listing: seq<Exchange>, post: seq<Exchange>,
                   walks: seq<seq<Exchange>>)
    requires client.Valid() && client.wire == before + listing + post + Flat(walks)
    ensures Played(client.script, client.step, before + listing + post + Flat(walks))
  {
  }

  lemma AdvanceIs(page: Page)
    ensures Jump(page) == if page.limit <= 0 then |page.items| else page.limit
    ensures Advance(page) == page.skip + Jump(page)
  {
  }

  lemma MatchIsValid(item: Item, known: set<string>, hash: string)
    requires Matches(item, known, hash)
    ensures ValidDSeq(item.deployment.dseq)
  {
  }
}
