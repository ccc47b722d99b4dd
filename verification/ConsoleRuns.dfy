// What a run of the Console client looks like on the wire
// (internal/console/client.go, deployments.go, deployment_secrets.go).
module ConsoleRuns {
  import opened Basics
  import opened ConsoleLeases
  import opened ConsoleWire

  const MAX_RETRIES: nat := 3
  const PAGE_SIZE: nat := 100
  const MAX_PAGES: nat := 100
  const MAX_RECORDS: nat := 10000

  // ------------------------------------------------------ what a call may send

  function MaxSends(v: Verb): (n: nat)
    ensures n == if v.POST? || v.PATCH? then 1 else 3
  {
    if Idempotent(v) then MAX_RETRIES else 1
  }

  // What an answer amounts to when nothing is sent after it.
  function LastWord(req: Request, reply: Reply): Data {
    var verdict := Interpret(req, reply);
    if verdict.Finish? then verdict.data else Failed(Other)
  }

  // A doJSON call: one request, repeated only after a retryable answer; its
  // result is read off the last answer.
  ghost predicate JsonRun(req: Request, r: Data, sent: seq<Exchange>) {
    && |sent| <= MaxSends(req.verb)
    && (forall i :: 0 <= i < |sent| ==> sent[i].request == req)
    && (forall i :: 0 <= i < |sent| - 1 ==> Interpret(req, sent[i].attempt.reply).TryAgain?)
    && r == (if sent == [] then Failed(Other) else LastWord(req, sent[|sent| - 1].attempt.reply))
  }

  ghost predicate DataRun(req: Request, sensitive: bool, r: Data, sent: seq<Exchange>) {
    exists raw :: JsonRun(req, raw, sent) && r == if sensitive then SanitizedData(raw) else raw
  }

  // The call went on as long as the answers allow: only a final answer, three
  // sends or a caller who gave up ended it.
  ghost predicate Persisted(script: Script, clock: nat -> bool, from: nat, to: nat, req: Request, sent: seq<Exchange>) {
    |sent| < MaxSends(req.verb) && (sent == [] || Interpret(req, sent[|sent| - 1].attempt.reply).TryAgain?) ==>
      GaveUp(script, clock, from, to, req)
  }

  // Only GET requests were sent.
  ghost predicate ReadOnly(sent: seq<Exchange>) {
    AllVerb(sent, GET)
  }

  lemma ReadsCreateNothing(sent: seq<Exchange>, v: Verb)
    requires ReadOnly(sent)
    ensures NothingCreated(sent) && (v != GET ==> Count(sent, v) == 0)
  {
    CountUniform(sent, GET, v);
  }

  lemma RunSendsAtMost(req: Request, sensitive: bool, r: Data, sent: seq<Exchange>, v: Verb)
    requires DataRun(req, sensitive, r, sent)
    ensures AllVerb(sent, req.verb) && |sent| <= MaxSends(req.verb)
    ensures Count(sent, v) == if v == req.verb then |sent| else 0
  {
    CountUniform(sent, req.verb, v);
  }

  // A definitive failure of an honest server means nothing was created.
  lemma DefinitiveCreatesNothing(sensitive: bool, r: Data, sent: seq<Exchange>)
    requires DataRun(Request(POST, NewDeployment), sensitive, r, sent)
    requires r.Failed? && Definitive(r.failure) && AllHonest(sent)
    ensures NothingCreated(sent)
  {
    var req := Request(POST, NewDeployment);
    var raw :| JsonRun(req, raw, sent) && r == if sensitive then SanitizedData(raw) else raw;
    SanitizingKeepsVerdict(raw.failure);
    assert |sent| == 1;
    DefinitiveMeansRefused(req, sent[0].attempt.reply);
  }

  // And an answer that is not definitive was no refusal.
  lemma UndecidedIsUnrefused(req: Request, sensitive: bool, r: Data, sent: seq<Exchange>)
    requires DataRun(req, sensitive, r, sent) && req.verb.POST?
    requires r.Failed? ==> !Definitive(r.failure)
    ensures Unrefused(sent)
  {
    var raw :| JsonRun(req, raw, sent) && r == if sensitive then SanitizedData(raw) else raw;
    if raw.Failed? { SanitizingKeepsVerdict(raw.failure); }
    if sent != [] && Refusal(sent[0].attempt.reply) {
      RefusedMeansDefinitive(req, sent[0].attempt.reply);
    }
  }

  // ----------------------------------------------------------- paging, faithful

  function PageOf(all: seq<Item>, skip: nat, limit: nat): Page {
    var from := if skip < |all| then skip else |all|;
    var to := if from + limit < |all| then from + limit else |all|;
    Page(all[from..to], skip, limit, to < |all|)
  }

  function Deployments(items: seq<Item>): (r: seq<Deployment>)
    ensures |r| == |items|
  {
    seq(|items|, i requires 0 <= i < |items| => items[i].deployment)
  }

  // A server whose listing endpoint pages through one fixed list.
  ghost predicate Faithful(script: Script, all: seq<Item>) {
    forall n: nat, skip: nat ::
      script(n, Request(GET, DeploymentPage(skip, PAGE_SIZE)))
      == Attempt(false, Response(200, PageBody(PageOf(all, skip, PAGE_SIZE))), None)
  }

  // One more faithful page extends what has been listed so far.
  lemma PageExtends(truth: seq<Item>, all: seq<Item>, page: Page)
    requires |all| <= |truth| && Deployments(all) == Deployments(truth)[..|all|]
    requires var p := PageOf(truth, |all|, PAGE_SIZE); page == p.(items := Regrouped(p.items))
    ensures var next := all + page.items;
            && page.skip == |all| && page.limit == PAGE_SIZE && |page.items| <= PAGE_SIZE
            && (page.hasMore <==> |all| + PAGE_SIZE < |truth|)
            && (page.hasMore ==> |page.items| == PAGE_SIZE)
            && (!page.hasMore ==> |next| == |truth|)
            && |next| <= |truth| && Deployments(next) == Deployments(truth)[..|next|]
  {
    hide OwnedBy, AllLeases;
    assert forall i :: 0 <= i < |page.items| ==> page.items[i].deployment == truth[|all| + i].deployment;
  }

  // A walk over a faithful server has listed this much of it and goes on.
  ghost predicate Following(truth: seq<Item>, all: seq<Item>, pageCount: nat, skip: int) {
    && skip == PAGE_SIZE * pageCount == |all| <= |truth| && skip >= 0 && (pageCount > 0 ==> skip < |truth|)
    && Deployments(all) == Deployments(truth)[..|all|]
  }

  lemma FollowPage(truth: seq<Item>, all: seq<Item>, pageCount: nat, skip: int, page: Page)
    requires Following(truth, all, pageCount, skip)
    requires var p := PageOf(truth, skip, PAGE_SIZE); page == p.(items := Regrouped(p.items))
    ensures var next := all + page.items;
            && |next| <= |truth| && page.limit == PAGE_SIZE > 0 && page.skip == skip >= 0
            && if page.hasMore then Following(truth, next, pageCount + 1, page.skip + page.limit)
               else |next| == |truth| && Deployments(next) == Deployments(truth)
  {
    PageExtends(truth, all, page);
    hide Regrouped, PageOf;
    if !page.hasMore { assert Deployments(truth)[..|truth|] == Deployments(truth); }
  }

  lemma FollowsFromStart(truth: seq<Item>)
    ensures Following(truth, [], 0, 0)
  {
  }

  lemma FollowedTooFar(truth: seq<Item>, all: seq<Item>, skip: int)
    requires Following(truth, all, MAX_PAGES, skip)
    ensures |truth| > MAX_RECORDS
  {
  }

  // --------------------------------------------------- walks, as the wire shows

  // The page a reply carries.
  function PageReply(x: Exchange): Option<Page> {
    if x.attempt.reply.Response? && 200 <= x.attempt.reply.status < 300 && x.attempt.reply.body.PageBody? then
      Some(x.attempt.reply.body.page)
    else None
  }

  // Where a page says the next one starts.
  function Advance(page: Page): int {
    page.skip + Jump(page)
  }

  function Jump(page: Page): int { if page.limit <= 0 then |page.items| else page.limit }

  function PageRequest(skip: int): Request { Request(GET, DeploymentPage(skip, PAGE_SIZE)) }

  predicate AsksPage(x: Exchange) {
    x.request.verb.GET? && x.request.target.DeploymentPage? && x.request.target.limit == PAGE_SIZE
  }

  function Skip(x: Exchange): int
    requires AsksPage(x)
  {
    x.request.target.skip
  }

  // After a page comes the one it announces, further on; after anything else
  // the same request again.
  predicate Continues(x: Exchange, y: Exchange)
    requires AsksPage(x) && AsksPage(y)
  {
    match PageReply(x)
    case Some(page) => page.hasMore && Skip(y) == Advance(page) && Skip(x) < Skip(y)
    case None => y.request == x.request
  }

  ghost function Skips(sent: seq<Exchange>): set<int>
    requires forall i :: 0 <= i < |sent| ==> AsksPage(sent[i])
  {
    set i | 0 <= i < |sent| :: Skip(sent[i])
  }

  // The requests of a listing walk: from 0 upwards, each offset at most three
  // times in a row, at most 100 offsets.
  ghost predicate WalkRun(sent: seq<Exchange>) {
    && (forall i :: 0 <= i < |sent| ==> AsksPage(sent[i]))
    && (sent != [] ==> Skip(sent[0]) == 0)
    && (forall i, j :: 0 <= i < j < |sent| && j == i + 1 ==> Continues(sent[i], sent[j]))
    && Climbs(sent)
    && |Skips(sent)| <= MAX_PAGES
  }

  // The re-filed items of every page answered, in order.
  ghost function ListedItems(sent: seq<Exchange>): seq<Item> {
    if sent == [] then []
    else ListedItems(sent[..|sent| - 1]) + PageItems(sent[|sent| - 1])
  }

  ghost function PageItems(x: Exchange): seq<Item> {
    match PageReply(x) case Some(page) => Regrouped(page.items) case None => []
  }

  // What a walk amounts to: everything listed, when its last answer is a last
  // page and the records fit.
  ghost function WalkResult(sent: seq<Exchange>): Result<seq<Item>> {
    if sent != [] && PageReply(sent[|sent| - 1]).Some? && !PageReply(sent[|sent| - 1]).value.hasMore
       && |ListedItems(sent)| <= MAX_RECORDS
    then Ok(ListedItems(sent))
    else Err
  }

  // What a walk asks for and yields, in numbers.
  lemma WalkBounds(sent: seq<Exchange>)
    requires WalkRun(sent)
    ensures |Skips(sent)| <= 100 && (WalkResult(sent).Ok? ==> |WalkResult(sent).value| <= 10000)
    ensures forall i :: 0 <= i < |sent| ==>
              && sent[i].request.verb.GET? && sent[i].request.target.DeploymentPage?
              && sent[i].request.target.limit == 100 && (i == 0 ==> sent[i].request.target.skip == 0)
  {
    hide ListedItems, Climbs;
  }

  // The requests for one page: the same, again only after an answer without
  // a page.
  ghost predicate PageRun(sent: seq<Exchange>, skip: int) {
    && |sent| <= MAX_RETRIES
    && (forall i :: 0 <= i < |sent| ==> sent[i].request == Request(GET, DeploymentPage(skip, PAGE_SIZE)))
    && forall i :: 0 <= i < |sent| - 1 ==> PageReply(sent[i]).None?
  }

  // The walk stands at this offset.
  ghost predicate WalkAt(sent: seq<Exchange>, skip: int) {
    && (forall i :: 0 <= i < |sent| ==> AsksPage(sent[i]))
    && if sent == [] then skip == 0
       else
         var last := sent[|sent| - 1];
         PageReply(last).Some? && PageReply(last).value.hasMore
         && skip == Advance(PageReply(last).value) && Skip(last) < skip
  }

  lemma {:induction false} ItemsExtend(sent: seq<Exchange>, now: seq<Exchange>, skip: int)
    requires PageRun(now, skip)
    ensures ListedItems(sent + now) == ListedItems(sent) + if now == [] then [] else PageItems(now[|now| - 1])
    ensures now != [] && PageReply(now[|now| - 1]).Some? ==>
              PageItems(now[|now| - 1]) == Regrouped(PageReply(now[|now| - 1]).value.items)
    decreases |now|
  {
    if now == [] {
      assert sent + now == sent;
    } else {
      var front, all := now[..|now| - 1], sent + now;
      assert all[..|all| - 1] == sent + front && all[|all| - 1] == now[|now| - 1];
      assert ListedItems(all) == ListedItems(sent + front) + PageItems(now[|now| - 1]);
      assert PageRun(front, skip);
      assert front != [] ==> PageItems(front[|front| - 1]) == [];
      assert PageReply(now[|now| - 1]).Some? ==>
             PageItems(now[|now| - 1]) == Regrouped(PageReply(now[|now| - 1]).value.items);
      hide ListedItems, PageItems, PageReply, Regrouped;
      ItemsExtend(sent, front, skip);
      assert ListedItems(sent) + [] == ListedItems(sent);
    }
  }

  // Offsets never go back, and none is asked more than three times in a row.
  ghost predicate Climbs(sent: seq<Exchange>)
    requires forall i :: 0 <= i < |sent| ==> AsksPage(sent[i])
  {
    && (forall i, j :: 0 <= i < j < |sent| ==> Skip(sent[i]) <= Skip(sent[j]))
    && (forall i, j :: 0 <= i < j < |sent| && j == i + MAX_RETRIES ==> Skip(sent[i]) < Skip(sent[j]))
  }

  lemma ClimbsExtend(sent: seq<Exchange>, now: seq<Exchange>, skip: int)
    requires forall i :: 0 <= i < |sent| ==> AsksPage(sent[i]) && Skip(sent[i]) < skip
    requires forall i :: 0 <= i < |now| ==> AsksPage(now[i]) && Skip(now[i]) == skip
    requires Climbs(sent) && |now| <= MAX_RETRIES
    ensures forall i :: 0 <= i < |sent + now| ==> AsksPage((sent + now)[i])
    ensures Climbs(sent + now)
  {
    hide AsksPage;
    var all := sent + now;
    assert forall i :: 0 <= i < |sent| ==> all[i] == sent[i];
    assert forall i :: |sent| <= i < |all| ==> all[i] == now[i - |sent|];
  }

  lemma WalkExtends(sent: seq<Exchange>, now: seq<Exchange>, skip: int)
    requires WalkRun(sent) && WalkAt(sent, skip) && PageRun(now, skip) && |Skips(sent)| < MAX_PAGES
    ensures WalkRun(sent + now) && |Skips(sent + now)| == |Skips(sent)| + if now == [] then 0 else 1
  {
    assert forall i :: 0 <= i < |sent| ==> AsksPage(sent[i]) && Skip(sent[i]) < skip;
    assert forall i :: 0 <= i < |now| ==> AsksPage(now[i]) && Skip(now[i]) == skip;
    assert sent == [] && now != [] ==> Skip(now[0]) == 0 && (sent + now)[0] == now[0];
    SkipsExtend(sent, now, skip);
    ContinuesExtend(sent, now, skip);
    ClimbsExtend(sent, now, skip);
    hide Skips, Continues, AsksPage, WalkAt, PageRun, Climbs;
  }

  lemma ContinuesExtend(sent: seq<Exchange>, now: seq<Exchange>, skip: int)
    requires WalkRun(sent) && WalkAt(sent, skip) && PageRun(now, skip)
    ensures forall i :: 0 <= i < |sent + now| ==> AsksPage((sent + now)[i])
    ensures forall i, j :: 0 <= i < j < |sent + now| && j == i + 1 ==> Continues((sent + now)[i], (sent + now)[j])
  {
    var all := sent + now;
    hide Skips;
    forall i, j | 0 <= i < j < |all| && j == i + 1 ensures Continues(all[i], all[j]) {
      if j < |sent| {
        assert Continues(sent[i], sent[j]);
      } else if i == |sent| - 1 {
        assert all[i] == sent[|sent| - 1];
      }
    }
  }

  lemma SkipsExtend(sent: seq<Exchange>, now: seq<Exchange>, skip: int)
    requires forall i :: 0 <= i < |sent| ==> AsksPage(sent[i]) && Skip(sent[i]) < skip
    requires PageRun(now, skip)
    ensures forall i :: 0 <= i < |sent + now| ==> AsksPage((sent + now)[i])
    ensures |Skips(sent + now)| == |Skips(sent)| + if now == [] then 0 else 1
  {
    var all := sent + now;
    assert forall i :: 0 <= i < |all| ==> AsksPage(all[i]);
    if now == [] {
      assert all == sent;
    } else {
      assert forall i :: 0 <= i < |sent| ==> all[i] == sent[i];
      assert forall i :: |sent| <= i < |all| ==> Skip(all[i]) == skip;
      assert Skip(all[|sent|]) == skip;
      forall x | x in Skips(sent) ensures x in Skips(all) {
        var i :| 0 <= i < |sent| && Skip(sent[i]) == x;
        assert Skip(all[i]) == x;
      }
      forall x | x in Skips(all) ensures x in Skips(sent) + {skip} {
        var i :| 0 <= i < |all| && Skip(all[i]) == x;
        if i < |sent| { assert Skip(sent[i]) == x; }
      }
      assert Skips(all) == Skips(sent) + {skip};
      assert skip !in Skips(sent);
    }
  }

  // A walk whose next page does not come has no result.
  lemma StoppedShort(sent: seq<Exchange>, now: seq<Exchange>, skip: int)
    requires WalkAt(sent, skip) && PageRun(now, skip) && (now != [] ==> PageReply(now[|now| - 1]).None?)
    ensures WalkResult(sent + now) == Err
  {
    if now == [] { assert sent + now == sent; } else { assert (sent + now)[|sent + now| - 1] == now[|now| - 1]; }
  }

  // Re-filing leaves alone what the walk looks at.
  lemma RegroupedAdvance(page: Page)
    ensures var shown := page.(items := Regrouped(page.items));
            Advance(page) == Advance(shown) && Jump(page) == Jump(shown)
  {
  }

  lemma NoNextPage(sent: seq<Exchange>, skip: int)
    requires WalkAt(sent, skip)
    ensures WalkResult(sent) == Err
  {
  }

  // One that comes ends the walk, or moves it to where it points.
  lemma PageCame(sent: seq<Exchange>, now: seq<Exchange>, skip: int)
    requires WalkAt(sent, skip) && PageRun(now, skip) && now != [] && PageReply(now[|now| - 1]).Some?
    ensures var page, all := PageReply(now[|now| - 1]).value, sent + now;
            && WalkResult(all) == (if page.hasMore || |ListedItems(all)| > MAX_RECORDS then Err
                                   else Ok(ListedItems(all)))
            && (page.hasMore && skip < Advance(page) ==> WalkAt(all, Advance(page)))
  {
    assert (sent + now)[|sent + now| - 1] == now[|now| - 1];
  }

  // What makes a walk end without a result: the caller gave up on the page at
  // hand, that page did not come for good, or it is too much, the hundredth, or
  // points nowhere.
  ghost predicate WalkStops(script: Script, clock: nat -> bool, from: nat, to: nat, sent: seq<Exchange>)
    requires WalkRun(sent)
  {
    if sent == [] then GaveUp(script, clock, from, to, PageRequest(0))
    else
      var last := sent[|sent| - 1];
      match PageReply(last)
      case None =>
        || Interpret(last.request, last.attempt.reply).Finish?
        || (|sent| >= MAX_RETRIES && Skip(sent[|sent| - MAX_RETRIES]) == Skip(last))
        || GaveUp(script, clock, from, to, last.request)
      case Some(page) =>
        || !page.hasMore || |ListedItems(sent)| > MAX_RECORDS || |Skips(sent)| >= MAX_PAGES
        || Jump(page) <= 0 || Advance(page) <= Skip(last)
        || GaveUp(script, clock, from, to, PageRequest(Advance(page)))
  }

  // The state of a walk between pages.
  ghost predicate Walking(sent: seq<Exchange>, all: seq<Item>, pageCount: nat, skip: int) {
    && pageCount <= MAX_PAGES && WalkRun(sent) && WalkAt(sent, skip) && |Skips(sent)| == pageCount
    && all == ListedItems(sent) && |all| <= MAX_RECORDS && skip >= 0
  }

  lemma WalkingFromStart()
    ensures Walking([], [], 0, 0)
  {
    assert Skips([]) == {};
  }

  lemma WalkedTooFar(sent: seq<Exchange>, all: seq<Item>, pageCount: nat, skip: int)
    requires Walking(sent, all, pageCount, skip)
    ensures WalkRun(sent) && WalkResult(sent) == Err
    ensures pageCount == MAX_PAGES ==> forall script, clock, from, to :: WalkStops(script, clock, from, to, sent)
  {
    NoNextPage(sent, skip);
    assert sent == [] ==> Skips(sent) == {};
  }

  // What the requests for a page brought.
  ghost predicate Brought(now: seq<Exchange>, r: Result<Page>) {
    && (r.Ok? <==> now != [] && PageReply(now[|now| - 1]).Some?)
    && (r.Ok? ==> var page := PageReply(now[|now| - 1]).value; r.value == page.(items := Regrouped(page.items)))
  }

  // A page that does not come, or is too much, or points nowhere ends the walk
  // without a result and for that reason; the last page ends it with one; any
  // other moves it on.
  lemma NextPage(script: Script, clock: nat -> bool, start: nat, from: nat, to: nat, sent: seq<Exchange>,
                 all: seq<Item>,
                 pageCount: nat, skip: int, now: seq<Exchange>, r: Result<Page>)
    requires Walking(sent, all, pageCount, skip) && pageCount < MAX_PAGES && PageRun(now, skip) && Brought(now, r)
    requires start <= from && Persisted(script, clock, from, to, PageRequest(skip), now)
    ensures WalkRun(sent + now)
    ensures r.Err? ==> WalkResult(sent + now) == Err && WalkStops(script, clock, start, to, sent + now)
    ensures r.Ok? ==>
              var next := all + r.value.items;
              if |next| > MAX_RECORDS then WalkResult(sent + now) == Err
                 && WalkStops(script, clock, start, to, sent + now)
              else if !r.value.hasMore then WalkResult(sent + now) == Ok(next)
              else
                && WalkResult(sent + now) == Err
                && if Jump(r.value) > 0 && Advance(r.value) > skip
                   then Walking(sent + now, next, pageCount + 1, Advance(r.value))
                   else WalkStops(script, clock, start, to, sent + now)
  {
    WalkExtends(sent, now, skip);
    ItemsExtend(sent, now, skip);
    if r.Err? {
      StoppedShort(sent, now, skip);
      PageMissing(script, clock, start, from, to, sent, skip, now);
    } else {
      PageCame(sent, now, skip);
      RegroupedAdvance(PageReply(now[|now| - 1]).value);
      assert (sent + now)[|sent + now| - 1] == now[|now| - 1];
      hide WalkRun, WalkAt, Skips, ListedItems, PageItems, Regrouped, WalkResult, GaveUp;
    }
  }

  lemma PageMissing(script: Script, clock: nat -> bool, start: nat, from: nat, to: nat, sent: seq<Exchange>, skip: int,
                    now: seq<Exchange>)
    requires WalkRun(sent) && WalkAt(sent, skip) && PageRun(now, skip) && WalkRun(sent + now)
    requires now == [] || PageReply(now[|now| - 1]).None?
    requires start <= from && Persisted(script, clock, from, to, PageRequest(skip), now)
    ensures WalkStops(script, clock, start, to, sent + now)
  {
    if GaveUp(script, clock, from, to, PageRequest(skip)) {
      GaveUpWithin(script, clock, from, to, start, PageRequest(skip));
    }
    hide GaveUp, ListedItems, Skips;
    var all := sent + now;
    if now == [] {
      assert all == sent;
    } else {
      assert all[|all| - 1] == now[|now| - 1];
      if |now| == MAX_RETRIES { assert all[|all| - MAX_RETRIES] == now[0]; }
    }
  }

  lemma WalksOnlyRead(sent: seq<Exchange>)
    requires WalkRun(sent)
    ensures ReadOnly(sent) && NothingCreated(sent) && Count(sent, POST) == 0
  {
    ReadsCreateNothing(sent, POST);
  }

  // ------------------------------------------------------- reconciled creation

  predicate Matches(item: Item, known: set<string>, hash: string) {
    item.deployment.dseq !in known && item.deployment.hash == hash && ValidDSeq(item.deployment.dseq)
  }

  function Known(items: seq<Item>): set<string> {
    set i | 0 <= i < |items| :: items[i].deployment.dseq
  }

  // dseq is the only new deployment with that hash in the listing.
  ghost predicate OnlyNew(items: seq<Item>, known: set<string>, hash: string, dseq: string) {
    exists i :: 0 <= i < |items| && Matches(items[i], known, hash) && items[i].deployment.dseq == dseq
      && forall j :: 0 <= j < |items| && Matches(items[j], known, hash) ==> j == i
  }

  datatype Submission = Accepted(created: Created) | Refused | Unknown

  datatype Artifacts = Artifacts(hash: string, manifest: string)

  // A create that the server answered with this, complete with its receipt.
  ghost predicate Acknowledged(sent: seq<Exchange>, created: Created) {
    exists i :: 0 <= i < |sent| && sent[i].request == Request(POST, NewDeployment)
      && sent[i].attempt.reply.Response? && 200 <= sent[i].attempt.reply.status < 300
      && sent[i].attempt.reply.body == CreatedBody(created) && ValidDSeq(created.dseq)
      && created.receipt.Some? && created.receipt.value.code == Some(0) && !created.receipt.value.hashBlank
  }

  // The log grew by one entry, successful exactly when the call was.
  ghost predicate LoggedOnce(before: seq<Entry>, after: seq<Entry>, ok: bool) {
    |after| == |before| + 1 && before == after[..|before|] && (after[|before|].status.Success? <==> ok)
  }

  function WithManifest(created: Created, manifest: string): Created {
    if created.manifest == "" then created.(manifest := manifest) else created
  }

  predicate NoneNew(items: seq<Item>, known: set<string>, hash: string) {
    forall i :: 0 <= i < |items| ==> !Matches(items[i], known, hash)
  }

  predicate SeveralNew(items: seq<Item>, known: set<string>, hash: string) {
    exists i, j :: 0 <= i < j < |items| && Matches(items[i], known, hash) && Matches(items[j], known, hash)
  }

  ghost function Flat(walks: seq<seq<Exchange>>): seq<Exchange> {
    if walks == [] then [] else Flat(walks[..|walks| - 1]) + walks[|walks| - 1]
  }

  // The read-backs of an ambiguous create: whole walks, none of which but the
  // last shows anything new with the hash.
  ghost predicate LookedFor(walks: seq<seq<Exchange>>, known: set<string>, hash: string) {
    && (forall k :: 0 <= k < |walks| ==> WalkRun(walks[k]))
    && forall k :: 0 <= k < |walks| - 1 ==> WalkResult(walks[k]).Ok? ==>
       NoneNew(WalkResult(walks[k]).value, known, hash)
  }

  // The last of them shows exactly this one.
  ghost predicate FoundOnly(walks: seq<seq<Exchange>>, known: set<string>, hash: string, dseq: string) {
    && walks != [] && WalkResult(walks[|walks| - 1]).Ok?
    && OnlyNew(WalkResult(walks[|walks| - 1]).value, known, hash, dseq)
  }

  // A created deployment is the acknowledged one, completed with the manifest,
  // or the only new one with the hash in the last read-back.
  ghost predicate Obtained(created: Created, post: seq<Exchange>, walks: seq<seq<Exchange>>, known: set<string>,
                           prepared: Artifacts) {
    && ValidDSeq(created.dseq)
    && if walks == [] then
         exists c :: Acknowledged(post, c)
           && created == c.(manifest := if c.manifest == "" then prepared.manifest else c.manifest)
       else
         && created == Created(created.dseq, prepared.manifest, None)
         && FoundOnly(walks, known, prepared.hash, created.dseq)
  }

  // What the entry of a create says: success names the deployment, failure of
  // an honest server means nothing was created, pending means that no refusal
  // was seen and the read-backs did not settle it.
  ghost predicate LoggedCreate(entry: Entry, r: Result<Created>, post: seq<Exchange>, walks: seq<seq<Exchange>>) {
    && entry.action == "create-deployment"
    && (entry.status.Success? <==> r.Ok?)
    && (r.Ok? ==> entry.dseq == r.value.dseq && !entry.error)
    && (entry.status.FailedStatus? ==> walks == [] && (AllHonest(post) ==> NothingCreated(post)))
    && (entry.status.Pending? ==> walks != [] && Unrefused(post))
  }

  // The caller stopped waiting at some moment in between.
  ghost predicate Impatient(clock: nat -> bool, from: nat, to: nat) {
    exists n :: from <= n < to && !clock(n)
  }

  // The read-backs left it open: the last listing failed, shows nothing new with
  // the hash or shows several, and it was the fifth unless it shows several or
  // the caller stopped waiting.
  ghost predicate Unsettled(walks: seq<seq<Exchange>>, known: set<string>, hash: string, clock: nat -> bool,
                            from: nat, to: nat) {
    && walks != []
    && var last := WalkResult(walks[|walks| - 1]);
       && (last.Err? || NoneNew(last.value, known, hash) || SeveralNew(last.value, known, hash))
       && (|walks| < MAX_RETRIES + 2 ==>
             (last.Ok? && SeveralNew(last.value, known, hash)) || Impatient(clock, from, to))
  }

  lemma UnsettledWithin(walks: seq<seq<Exchange>>, known: set<string>, hash: string, clock: nat -> bool,
                        from: nat, to: nat, earlier: nat)
    requires Unsettled(walks, known, hash, clock, from, to) && earlier <= from
    ensures Unsettled(walks, known, hash, clock, earlier, to)
  {
    hide WalkResult, NoneNew, SeveralNew;
  }

  // ------------------------------------------------- details, as the wire shows

  // The deployment a reply shows.
  function Shows(x: Exchange): Option<Detail> {
    if x.attempt.reply.Response? && 200 <= x.attempt.reply.status < 300 && x.attempt.reply.body.DetailBody? then
      Some(x.attempt.reply.body.detail)
    else None
  }

  // A reply, to whatever request, that shows the wanted version.
  predicate Confirms(x: Exchange, dseq: string, hash: string) {
    Shows(x).Some? && Shows(x).value.deployment.dseq == dseq && Shows(x).value.deployment.hash == hash
  }

  function Confirming(dseq: string, hash: string): Exchange -> bool {
    x => Confirms(x, dseq, hash)
  }

  // A reply that shows every requested lease active.
  function Leasing(leases: seq<LeaseRequest>): Exchange -> bool {
    x => Shows(x).Some? && LeasesActive(Shows(x).value.leases, leases)
  }

  // The answer to a PATCH that acknowledges the whole edit.
  predicate Patches(x: Exchange, dseq: string, rename: Option<string>) {
    && x.request == Request(PATCH, OneDeployment(dseq)) && Shows(x).Some? && Shows(x).value.deployment.dseq == dseq
    && if rename.Some? then Shows(x).value.name == rename
       else Shows(x).value.manifestVersion != "" && Shows(x).value.deployment.hash == Shows(x).value.manifestVersion
  }

  function Patching(dseq: string, rename: Option<string>): Exchange -> bool {
    x => Patches(x, dseq, rename)
  }

  // The first reply of this kind ends the sending and is the result; without
  // one there is no result.
  ghost predicate EndsAt(sent: seq<Exchange>, kind: Exchange -> bool, r: Result<Detail>) {
    && (forall i :: 0 <= i < |sent| - 1 ==> !kind(sent[i]))
    && (r.Err? ==> forall i :: 0 <= i < |sent| ==> !kind(sent[i]))
    && (r.Ok? ==> sent != [] && kind(sent[|sent| - 1]) && Shows(sent[|sent| - 1]) == Some(r.value))
  }

  lemma EndsLater(sent: seq<Exchange>, more: seq<Exchange>, kind: Exchange -> bool, r: Result<Detail>)
    requires EndsAt(sent, kind, Err) && EndsAt(more, kind, r)
    ensures EndsAt(sent + more, kind, r)
  {
    hide Shows;
    var all := sent + more;
    forall i | 0 <= i < |all| - 1 ensures !kind(all[i]) {
      if i >= |sent| { assert all[i] == more[i - |sent|]; }
    }
  }

  // A PUT whose answer asks to be tried again later.
  predicate TransientPut(x: Exchange, sensitive: bool) {
    && x.request.verb.PUT?
    && var failure := FailureOf(x.request, sensitive, [x]);
       Transient(failure)
  }

  // The failure a call ends with, read off the wire.
  function FailureOf(req: Request, sensitive: bool, sent: seq<Exchange>): Failure {
    var raw := if sent == [] then Failed(Other) else LastWord(req, sent[|sent| - 1].attempt.reply);
    var data := if sensitive then SanitizedData(raw) else raw;
    if data.Failed? then data.failure else Other
  }

  lemma RunFails(req: Request, sensitive: bool, r: Data, sent: seq<Exchange>)
    requires DataRun(req, sensitive, r, sent)
    ensures FailureOf(req, sensitive, sent) == if r.Failed? then r.failure else Other
  {
  }

  function TransientPuts(sent: seq<Exchange>, sensitive: bool): nat {
    if sent == [] then 0
    else TransientPuts(sent[..|sent| - 1], sensitive) + if TransientPut(sent[|sent| - 1], sensitive) then 1 else 0
  }

  function LastPut(sent: seq<Exchange>): Option<Exchange> {
    if sent == [] then None
    else if sent[|sent| - 1].request.verb.PUT? then Some(sent[|sent| - 1])
    else LastPut(sent[..|sent| - 1])
  }

  lemma {:induction false} PutsConcat(a: seq<Exchange>, b: seq<Exchange>, sensitive: bool)
    ensures TransientPuts(a + b, sensitive) == TransientPuts(a, sensitive) + TransientPuts(b, sensitive)
    ensures LastPut(a + b) == if LastPut(b).Some? then LastPut(b) else LastPut(a)
    decreases |b|
  {
    hide TransientPut;
    if b == [] {
      assert a + b == a;
    } else {
      assert (a + b)[..|a + b| - 1] == a + b[..|b| - 1];
      PutsConcat(a, b[..|b| - 1], sensitive);
    }
  }

  lemma {:induction false} ReadsPutNothing(sent: seq<Exchange>, sensitive: bool)
    requires ReadOnly(sent)
    ensures TransientPuts(sent, sensitive) == 0 && LastPut(sent).None?
    decreases |sent|
  {
    if sent != [] { ReadsPutNothing(sent[..|sent| - 1], sensitive); }
  }

  // A PUT's own run: it ends in the transient answer or has none.
  lemma {:induction false} PutRun(req: Request, sensitive: bool, r: Data, sent: seq<Exchange>)
    requires DataRun(req, sensitive, r, sent) && req.verb.PUT?
    ensures var transient := r.Failed? && Transient(r.failure);
            && TransientPuts(sent, sensitive) == (if transient then 1 else 0)
            && (sent == [] ==> !transient && LastPut(sent).None?)
            && (sent != [] ==> LastPut(sent) == Some(sent[|sent| - 1])
                               && (transient <==> TransientPut(sent[|sent| - 1], sensitive)))
  {
    RunFails(req, sensitive, r, sent);
    if sent != [] {
      var front := sent[..|sent| - 1];
      forall i | 0 <= i < |front| ensures !TransientPut(front[i], sensitive) {
        assert Interpret(req, front[i].attempt.reply).TryAgain?;
      }
      NoneTransient(front, sensitive);
    }
  }

  lemma {:induction false} NoneTransient(sent: seq<Exchange>, sensitive: bool)
    requires forall i :: 0 <= i < |sent| ==> !TransientPut(sent[i], sensitive)
    ensures TransientPuts(sent, sensitive) == 0
    decreases |sent|
  {
    hide TransientPut;
    if sent != [] { NoneTransient(sent[..|sent| - 1], sensitive); }
  }

  // An update that fails was not worth trying again: its last PUT was answered
  // otherwise, three were answered so, or the caller gave up on the PUT.
  ghost predicate TriedEnough(script: Script, clock: nat -> bool, from: nat, to: nat, dseq: string, sensitive: bool,
                              sent: seq<Exchange>)
  {
    || GaveUp(script, clock, from, to, Request(PUT, OneDeployment(dseq)))
    || (LastPut(sent).Some? && (TransientPut(LastPut(sent).value, sensitive) ==>
       TransientPuts(sent, sensitive) == MAX_RETRIES))
  }

  // One round of an update: its PUTs, and whether the answer was transient.
  ghost predicate RoundTried(script: Script, clock: nat -> bool, from: nat, to: nat, dseq: string, sensitive: bool,
                             round: seq<Exchange>, transient: bool)
  {
    && TransientPuts(round, sensitive) == (if transient then 1 else 0)
    && (LastPut(round).None? ==> GaveUp(script, clock, from, to, Request(PUT, OneDeployment(dseq))))
    && (LastPut(round).Some? ==> (TransientPut(LastPut(round).value, sensitive) <==> transient))
  }

  lemma RoundEnds(script: Script, clock: nat -> bool, start: nat, from: nat, to: nat, dseq: string, sensitive: bool,
                  sent: seq<Exchange>, round: seq<Exchange>, transient: bool)
    requires start <= from && RoundTried(script, clock, from, to, dseq, sensitive, round, transient)
    requires TransientPuts(sent, sensitive) < MAX_RETRIES
    ensures TransientPuts(sent + round, sensitive) == TransientPuts(sent, sensitive) + if transient then 1 else 0
    ensures !transient || TransientPuts(sent + round, sensitive) == MAX_RETRIES ==>
              TriedEnough(script, clock, start, to, dseq, sensitive, sent + round)
  {
    PutsConcat(sent, round, sensitive);
    var req := Request(PUT, OneDeployment(dseq));
    if LastPut(round).None? { GaveUpWithin(script, clock, from, to, start, req); }
    hide GaveUp, TransientPut, TransientPuts, LastPut;
  }

  lemma GaveUpWaiting(script: Script, clock: nat -> bool, n: nat, from: nat, to: nat, dseq: string, sensitive: bool,
                      sent: seq<Exchange>)
    requires from <= n < to && !clock(n)
    ensures TriedEnough(script, clock, from, to, dseq, sensitive, sent)
  {
    assert GaveUp(script, clock, from, to, Request(PUT, OneDeployment(dseq)));
  }

  // The rounds of an update so far: three PUTs each at most, and only the last
  // may have shown the wanted version.
  ghost predicate Updating(sent: seq<Exchange>, rounds: nat, dseq: string, hash: string, r: Result<Detail>) {
    && Count(sent, PUT) <= MAX_RETRIES * rounds && Count(sent, POST) == 0
    && EndsAt(sent, Confirming(dseq, hash), r)
  }

  // Every round so far ended in a transient answer.
  ghost predicate Rounds(sent: seq<Exchange>, rounds: nat, dseq: string, hash: string, sensitive: bool) {
    Updating(sent, rounds, dseq, hash, Err) && TransientPuts(sent, sensitive) == rounds
  }

  lemma UpdatingFromStart(dseq: string, hash: string, sensitive: bool)
    ensures Rounds([], 0, dseq, hash, sensitive)
  {
  }

  lemma NextRound(script: Script, clock: nat -> bool, start: nat, from: nat, to: nat, sent: seq<Exchange>, rounds: nat,
                  round: seq<Exchange>, dseq: string, hash: string, sensitive: bool, r: Result<Detail>, transient: bool)
    requires Rounds(sent, rounds, dseq, hash, sensitive) && rounds < MAX_RETRIES && start <= from
    requires Updating(round, 1, dseq, hash, r) && RoundTried(script, clock, from, to, dseq, sensitive, round, transient)
    ensures Updating(sent + round, MAX_RETRIES, dseq, hash, r)
    ensures r.Err? && transient ==> Rounds(sent + round, rounds + 1, dseq, hash, sensitive)
    ensures !transient || rounds + 1 == MAX_RETRIES ==>
              TriedEnough(script, clock, start, to, dseq, sensitive, sent + round)
  {
    RoundEnds(script, clock, start, from, to, dseq, sensitive, sent, round, transient);
    hide Count, EndsAt, TriedEnough, RoundTried, TransientPuts;
    CountConcatenates(sent, round, PUT);
    CountConcatenates(sent, round, POST);
    EndsLater(sent, round, Confirming(dseq, hash), r);
  }

  function Wanted(shown: Option<Detail>, dseq: string, hash: string): Result<Detail> {
    Taken(shown, shown.Some? && shown.value.deployment.dseq == dseq && shown.value.deployment.hash == hash)
  }

  lemma PutIsRound(script: Script, clock: nat -> bool, from: nat, to: nat, dseq: string, hash: string, sensitive: bool,
                   r: Data, sent: seq<Exchange>)
    requires DataRun(Request(PUT, OneDeployment(dseq)), sensitive, r, sent)
    requires Persisted(script, clock, from, to, Request(PUT, OneDeployment(dseq)), sent)
    ensures Updating(sent, 1, dseq, hash, Wanted(ShownIn(r), dseq, hash))
    ensures RoundTried(script, clock, from, to, dseq, sensitive, sent, r.Failed? && Transient(r.failure))
  {
    var req := Request(PUT, OneDeployment(dseq));
    RunSendsAtMost(req, sensitive, r, sent, PUT);
    RunSendsAtMost(req, sensitive, r, sent, POST);
    RunShows(req, sensitive, r, sent);
    ConfirmEnds(sent, ShownIn(r), dseq, hash);
    PutRun(req, sensitive, r, sent);
    hide Count, DataRun, EndsAt, ShownLast, TransientPuts, LastPut, TransientPut, Transient, GaveUp, AllVerb;
  }

  lemma ReadBackIsRound(script: Script, clock: nat -> bool, from: nat, middle: nat, to: nat, dseq: string, hash: string,
                        sensitive: bool, put: seq<Exchange>, transient: bool, get: seq<Exchange>,
                          detail: Result<Detail>)
    requires Updating(put, 1, dseq, hash, Err)
             && RoundTried(script, clock, from, middle, dseq, sensitive, put, transient)
    requires middle <= to && ReadOnly(get) && ShownLast(get, if detail.Ok? then Some(detail.value) else None)
    ensures var r := if detail.Ok? && detail.value.deployment.dseq == dseq && detail.value.deployment.hash == hash
                     then detail else Err;
            Updating(put + get, 1, dseq, hash, r)
    ensures RoundTried(script, clock, from, to, dseq, sensitive, put + get, transient)
  {
    var shown := if detail.Ok? then Some(detail.value) else None;
    ConfirmEnds(get, shown, dseq, hash);
    ReadsCreateNothing(get, PUT);
    ReadsCreateNothing(get, POST);
    CountConcatenates(put, get, PUT);
    CountConcatenates(put, get, POST);
    EndsLater(put, get, Confirming(dseq, hash), Wanted(shown, dseq, hash));
    PutsConcat(put, get, sensitive);
    ReadsPutNothing(get, sensitive);
    if LastPut(put).None? { GaveUpUntil(script, clock, from, middle, to, Request(PUT, OneDeployment(dseq))); }
    hide Count, EndsAt, ShownLast, TransientPuts, LastPut, TransientPut, GaveUp, ReadOnly, NothingCreated;
  }

  // No reply but the last shows anything, and that shows this.
  ghost predicate ShownLast(sent: seq<Exchange>, shown: Option<Detail>) {
    && (forall i :: 0 <= i < |sent| - 1 ==> Shows(sent[i]).None?)
    && shown == if sent == [] then None else Shows(sent[|sent| - 1])
  }

  function ShownIn(r: Data): Option<Detail> {
    if r.Got? && r.body.DetailBody? then Some(r.body.detail) else None
  }

  // A call's result shows a deployment exactly when its last reply does, and no
  // reply before that does.
  lemma RunShows(req: Request, sensitive: bool, r: Data, sent: seq<Exchange>)
    requires DataRun(req, sensitive, r, sent)
    ensures ShownLast(sent, ShownIn(r))
  {
  }

  function Taken(shown: Option<Detail>, ok: bool): Result<Detail> {
    if shown.Some? && ok then Ok(shown.value) else Err
  }

  lemma ConfirmEnds(sent: seq<Exchange>, shown: Option<Detail>, dseq: string, hash: string)
    requires ShownLast(sent, shown)
    ensures EndsAt(sent, Confirming(dseq, hash),
                   Taken(shown, shown.Some? && shown.value.deployment.dseq == dseq
                     && shown.value.deployment.hash == hash))
  {
    hide Shows;
  }

  lemma LeaseEnds(sent: seq<Exchange>, shown: Option<Detail>, leases: seq<LeaseRequest>)
    requires ShownLast(sent, shown)
    ensures EndsAt(sent, Leasing(leases), Taken(shown, shown.Some? && LeasesActive(shown.value.leases, leases)))
  {
    hide Shows, LeasesActive;
  }

  lemma PatchEnds(sent: seq<Exchange>, shown: Option<Detail>, dseq: string, rename: Option<string>)
    requires ShownLast(sent, shown)
             && forall i :: 0 <= i < |sent| ==> sent[i].request == Request(PATCH, OneDeployment(dseq))
    ensures EndsAt(sent, Patching(dseq, rename),
                   Taken(shown, shown.Some? && shown.value.deployment.dseq == dseq
                                   && if rename.Some? then shown.value.name == rename
                                      else
                                        && shown.value.manifestVersion != ""
                                        && shown.value.deployment.hash == shown.value.manifestVersion))
  {
    hide Shows;
  }

  // The requests a read-back can be made of: one deployment, validly named.
  predicate Readable(leases: seq<LeaseRequest>) {
    leases != [] && ValidDSeq(leases[0].dseq) && forall i :: 0 < i < |leases| ==> leases[i].dseq == leases[0].dseq
  }

  // One whole read of a deployment.
  ghost predicate ReadRun(script: Script, clock: nat -> bool, from: nat, to: nat, dseq: string, sent: seq<Exchange>) {
    && |sent| <= MAX_RETRIES
    && (forall i :: 0 <= i < |sent| ==> sent[i].request == Request(GET, OneDeployment(dseq)))
    && Persisted(script, clock, from, to, Request(GET, OneDeployment(dseq)), sent)
  }

  lemma ReadRunWithin(script: Script, clock: nat -> bool, from: nat, to: nat, earlier: nat, later: nat, dseq: string,
                      sent: seq<Exchange>)
    requires ReadRun(script, clock, from, to, dseq, sent) && earlier <= from && to <= later
    ensures ReadRun(script, clock, earlier, later, dseq, sent)
  {
    var req := Request(GET, OneDeployment(dseq));
    if GaveUp(script, clock, from, to, req) {
      GaveUpWithin(script, clock, from, to, earlier, req);
      GaveUpUntil(script, clock, earlier, to, later, req);
    }
  }

  // The reads of a deployment after a lease was submitted.
  ghost predicate ReadBack(script: Script, clock: nat -> bool, from: nat, to: nat, leases: seq<LeaseRequest>,
                           looks: seq<seq<Exchange>>)
  {
    && ReadOnly(Flat(looks))
    && (Readable(leases) ==> forall k :: 0 <= k < |looks| ==>
       ReadRun(script, clock, from, to, leases[0].dseq, looks[k]))
  }

  lemma ReadBackExtends(script: Script, clock: nat -> bool, start: nat, from: nat, to: nat, leases: seq<LeaseRequest>,
                        looks: seq<seq<Exchange>>, now: seq<Exchange>)
    requires ReadBack(script, clock, start, from, leases, looks) && ReadOnly(now) && start <= from <= to
    requires Readable(leases) ==> ReadRun(script, clock, from, to, leases[0].dseq, now)
    ensures ReadBack(script, clock, start, to, leases, looks + [now])
    ensures Flat(looks + [now]) == Flat(looks) + now
  {
    assert (looks + [now])[..|looks|] == looks;
    hide ReadRun;
    if Readable(leases) {
      forall k | 0 <= k < |looks + [now]|
             ensures ReadRun(script, clock, start, to, leases[0].dseq, (looks + [now])[k]) {
        if k < |looks| {
          ReadRunWithin(script, clock, start, from, start, to, leases[0].dseq, looks[k]);
        } else {
          ReadRunWithin(script, clock, from, to, start, to, leases[0].dseq, now);
        }
      }
    }
  }

  lemma ReadBackWithin(script: Script, clock: nat -> bool, from: nat, to: nat, earlier: nat, leases: seq<LeaseRequest>,
                       looks: seq<seq<Exchange>>)
    requires ReadBack(script, clock, from, to, leases, looks) && earlier <= from
    ensures ReadBack(script, clock, earlier, to, leases, looks)
  {
    hide ReadRun, ReadOnly;
    if Readable(leases) {
      forall k | 0 <= k < |looks| ensures ReadRun(script, clock, earlier, to, leases[0].dseq, looks[k]) {
        ReadRunWithin(script, clock, from, to, earlier, to, leases[0].dseq, looks[k]);
      }
    }
  }

  lemma NoLease(script: Script, clock: nat -> bool, at: nat, leases: seq<LeaseRequest>)
    ensures Flat([]) == [] && [] + Flat([]) == [] && Count([], POST) == 0
    ensures ReadBack(script, clock, at, at, leases, []) && EndsAt([], Leasing(leases), Err)
  {
  }

  // A lease submission by itself.
  lemma SubmittedLease(script: Script, clock: nat -> bool, at: nat, sensitive: bool, leases: seq<LeaseRequest>, r: Data,
                       post: seq<Exchange>)
    requires DataRun(Request(POST, NewLease), sensitive, r, post)
    ensures Flat([]) == [] && post + Flat([]) == post && Count(post, POST) == |post| <= 1
    ensures ReadBack(script, clock, at, at, leases, [])
    ensures EndsAt(post, Leasing(leases), Taken(ShownIn(r), ShownIn(r).Some?
            && LeasesActive(ShownIn(r).value.leases, leases)))
    ensures FailureOf(Request(POST, NewLease), sensitive, post) == if r.Failed? then r.failure else Other
  {
    var req := Request(POST, NewLease);
    RunSendsAtMost(req, sensitive, r, post, POST);
    RunShows(req, sensitive, r, post);
    LeaseEnds(post, ShownIn(r), leases);
    RunFails(req, sensitive, r, post);
    hide Count, DataRun, EndsAt, LeasesActive, FailureOf, ShownLast;
  }

  // And with its read-backs.
  lemma LookedInto(script: Script, clock: nat -> bool, from: nat, to: nat, start: nat, leases: seq<LeaseRequest>,
                   post: seq<Exchange>, looks: seq<seq<Exchange>>, r: Result<Detail>)
    requires ReadBack(script, clock, from, to, leases, looks) && start <= from
    requires EndsAt(post, Leasing(leases), Err) && EndsAt(Flat(looks), Leasing(leases), r)
             && Count(post, POST) == |post|
    ensures ReadBack(script, clock, start, to, leases, looks) && EndsAt(post + Flat(looks), Leasing(leases), r)
    ensures Count(post + Flat(looks), POST) == |post|
  {
    ReadBackWithin(script, clock, from, to, start, leases, looks);
    EndsLater(post, Flat(looks), Leasing(leases), r);
    ReadsCreateNothing(Flat(looks), POST);
    CountConcatenates(post, Flat(looks), POST);
  }

  predicate LeaseCoded(f: Failure) { f.Http? && f.text in LEASE_CODES }

  // A reply that carries one of the lease codes, as code or as text.
  predicate NamesLeaseCode(reply: Reply) {
    reply.Response? && reply.body.ErrorBody?
    && (|| reply.body.code in {"manifest_not_delivered", "provider_unreachable"}
        || reply.body.text in {"manifest_not_delivered", "provider_unreachable"})
  }

  // What is recorded of a lease submission that led to nothing: pending unless
  // the answer refused it or carried a lease code.
  ghost predicate LeaseStatus(status: Status, post: seq<Exchange>) {
    && (status.Pending? || status.FailedStatus?)
    && (status.FailedStatus? ==>
          post != [] && (Refusal(post[0].attempt.reply) || NamesLeaseCode(post[0].attempt.reply)))
    && (status.Pending? && post != [] ==>
          var reply := post[0].attempt.reply;
          && !Refusal(reply)
          && !(reply.Response? && reply.status >= 400 && reply.body.ErrorBody?
               && reply.body.code in {"manifest_not_delivered", "provider_unreachable"}))
  }

  lemma LeaseVerdict(sensitive: bool, post: seq<Exchange>)
    requires |post| <= 1
    ensures var failure := FailureOf(Request(POST, NewLease), sensitive, post);
            LeaseStatus(if LeaseCoded(failure) || Definitive(failure) then FailedStatus else Pending, post)
  {
    if post != [] {
      var reply := post[0].attempt.reply;
      if Interpret(Request(POST, NewLease), reply).data.Failed? {
        SanitizingKeepsVerdict(Interpret(Request(POST, NewLease), reply).data.failure);
      }
    }
  }

  // A usable sealing key was shown.
  ghost predicate KeyShown(sent: seq<Exchange>) {
    exists i :: 0 <= i < |sent| && sent[i].request == Request(GET, SecretsContext)
      && sent[i].attempt.reply.Response? && 200 <= sent[i].attempt.reply.status < 300
      && sent[i].attempt.reply.body == KeyBody(true)
  }

  lemma NothingSealed()
    ensures Count([], POST) == 0 && !KeyShown([]) && NothingCreated([])
    ensures Outcome("create-deployment", "", Success, true).status.FailedStatus?
    ensures Outcome("create-deployment", "", Pending, true).status.Pending?
  {
  }

  lemma RunKeys(r: Data, sent: seq<Exchange>)
    requires DataRun(Request(GET, SecretsContext), true, r, sent)
    ensures r.Got? && r.body == KeyBody(true) <==> KeyShown(sent)
  {
  }

  lemma KeyShownFirst(key: seq<Exchange>, more: seq<Exchange>, v: Verb)
    requires AllVerb(more, v) && v != GET
    ensures KeyShown(key + more) <==> KeyShown(key)
  {
    var all := key + more;
    assert forall i :: 0 <= i < |key| ==> all[i] == key[i];
    assert forall i :: |key| <= i < |all| ==> all[i] == more[i - |key|];
  }

  // What an edit of a saved definition may be sent for.
  ghost predicate PatchReady(renameOnly: bool, guard: string, current: Detail, applies: bool, keyShown: bool) {
    if renameOnly then guard == ""
    else
      && current.definition.Some?
      && current.definition.value.sdl != "" && current.definition.value.manifestVersion != ""
      && applies && keyShown
  }

  // How often a failed lease submission is looked into: not with a lease code,
  // once after a refusal, and otherwise through the whole window.
  function LooksWanted(post: seq<Exchange>, hasManifest: bool, polls: nat): nat {
    var failure := FailureOf(Request(POST, NewLease), !hasManifest, post);
    if !hasManifest || LeaseCoded(failure) then 0 else if Definitive(failure) then 1 else polls + 1
  }

  lemma ReadyMeansKey(renameOnly: bool, guard: string, current: Detail, applies: bool, keyShown: bool)
    requires PatchReady(renameOnly, guard, current, applies, keyShown)
    ensures renameOnly || keyShown
  {
  }

  // The PATCH is sent exactly when it is ready, unless the caller gives up; it
  // is the last thing sent, and a failure is recorded as pending exactly when
  // its answer is no refusal.
  ghost predicate PatchOutcome(script: Script, clock: nat -> bool, from: nat, to: nat, dseq: string, ready: bool,
                               sent: seq<Exchange>, r: Result<Detail>, status: Status) {
    if !ready then Count(sent, PATCH) == 0 && status.FailedStatus?
    else if Count(sent, PATCH) == 0 then
      GaveUp(script, clock, from, to, Request(PATCH, OneDeployment(dseq))) && status.Pending?
    else
      && sent != [] && sent[|sent| - 1].request.verb.PATCH?
      && (r.Err? ==> (status.Pending? <==> !Refusal(sent[|sent| - 1].attempt.reply)))
  }

  lemma PatchWithheld(script: Script, clock: nat -> bool, from: nat, to: nat, dseq: string, key: seq<Exchange>)
    requires ReadOnly(key)
    ensures PatchOutcome(script, clock, from, to, dseq, false, key, Err,
                         Outcome("update-deployment", dseq, Success, true).status)
  {
    ReadsCreateNothing(key, PATCH);
  }

  lemma PatchSent(script: Script, clock: nat -> bool, from: nat, middle: nat, to: nat, dseq: string,
                  key: seq<Exchange>, patch: seq<Exchange>, r: Result<Detail>, status: Status)
    requires ReadOnly(key) && AllVerb(patch, PATCH) && |patch| <= 1 && from <= middle
    requires patch == [] ==> r.Err? && GaveUp(script, clock, middle, to, Request(PATCH, OneDeployment(dseq)))
    requires r.Err? ==> status == if patch != [] && Refusal(patch[0].attempt.reply) then Success else Pending
    requires r.Ok? ==> status.Success?
    ensures PatchOutcome(script, clock, from, to, dseq, true, key + patch, r,
                         Outcome("update-deployment", dseq, status, r.Err?).status)
  {
    CountConcatenates(key, patch, PATCH);
    CountUniform(patch, PATCH, PATCH);
    ReadsCreateNothing(key, PATCH);
    if patch == [] { GaveUpWithin(script, clock, middle, to, from, Request(PATCH, OneDeployment(dseq))); }
    hide Count, GaveUp, Refusal;
  }

  // Reading shows nothing of the outcome of a PATCH.
  lemma ReadsPatchNothing(sent: seq<Exchange>, dseq: string, rename: Option<string>)
    requires ReadOnly(sent)
    ensures EndsAt(sent, Patching(dseq, rename), Err) && Count(sent, PATCH) == 0 && Count(sent, POST) == 0
  {
    ReadsCreateNothing(sent, PATCH);
    ReadsCreateNothing(sent, POST);
    hide Count, Shows;
  }

  // A PATCH after reads.
  lemma PatchAfterReads(key: seq<Exchange>, patch: seq<Exchange>, dseq: string, rename: Option<string>,
                        r: Result<Detail>)
    requires ReadOnly(key) && AllVerb(patch, PATCH) && |patch| <= 1 && EndsAt(patch, Patching(dseq, rename), r)
    ensures EndsAt(key + patch, Patching(dseq, rename), r)
    ensures Count(key + patch, PATCH) == |patch| && Count(key + patch, POST) == 0
    ensures KeyShown(key + patch) <==> KeyShown(key)
    ensures patch != [] ==> (key + patch)[|key + patch| - 1] == patch[0]
  {
    ReadsPatchNothing(key, dseq, rename);
    EndsLater(key, patch, Patching(dseq, rename), r);
    CountConcatenates(key, patch, PATCH);
    CountConcatenates(key, patch, POST);
    CountUniform(patch, PATCH, PATCH);
    CountUniform(patch, PATCH, POST);
    KeyShownFirst(key, patch, PATCH);
    hide Count, KeyShown, EndsAt, Patching;
  }

  lemma RunLists(skip: int, r: Data, sent: seq<Exchange>)
    requires DataRun(Request(GET, DeploymentPage(skip, PAGE_SIZE)), false, r, sent)
    ensures PageRun(sent, skip)
    ensures r.Got? && r.body.PageBody? ==> sent != [] && PageReply(sent[|sent| - 1]) == Some(r.body.page)
    ensures sent != [] && PageReply(sent[|sent| - 1]).Some? ==> r == Got(PageBody(PageReply(sent[|sent| - 1]).value))
  {
  }

  lemma AcknowledgedBy(sensitive: bool, post: seq<Exchange>, r: Data)
    requires DataRun(Request(POST, NewDeployment), sensitive, r, post)
    requires r.Got? && r.body.CreatedBody? && ValidCreated(r.body.result)
    ensures Acknowledged(post, r.body.result)
  {
    hide ValidDSeq;
    var last := post[|post| - 1];
  }

  // A submission whose result is none has no valid receipt.
  lemma UnacknowledgedBy(sensitive: bool, post: seq<Exchange>, r: Data, c: Created)
    requires DataRun(Request(POST, NewDeployment), sensitive, r, post) && |post| <= 1
    requires !(r.Got? && r.body.CreatedBody? && ValidCreated(r.body.result))
    ensures !Acknowledged(post, c)
  {
    hide ValidDSeq;
  }

  lemma AcknowledgedLater(looks: seq<Exchange>, post: seq<Exchange>, created: Created)
    requires Acknowledged(post, created)
    ensures Acknowledged(looks + post, created)
  {
    hide ValidDSeq;
    var i :| 0 <= i < |post| && post[i].request == Request(POST, NewDeployment)
      && post[i].attempt.reply.Response? && 200 <= post[i].attempt.reply.status < 300
      && post[i].attempt.reply.body == CreatedBody(created);
    assert (looks + post)[|looks| + i] == post[i];
  }

  lemma {:induction false} FlatReads(walks: seq<seq<Exchange>>)
    requires forall k :: 0 <= k < |walks| ==> WalkRun(walks[k])
    ensures ReadOnly(Flat(walks))
    decreases |walks|
  {
    if walks != [] { FlatReads(walks[..|walks| - 1]); }
  }

  // Reading first does not change what a submission says.
  lemma SubmittedAfter(looks: seq<Exchange>, post: seq<Exchange>)
    requires ReadOnly(looks)
    ensures Count(looks + post, POST) == Count(post, POST)
    ensures AllHonest(looks + post) ==> AllHonest(post)
    ensures NothingCreated(post) ==> NothingCreated(looks + post)
    ensures Unrefused(post) ==> Unrefused(looks + post)
  {
    hide Honest;
    ReadsCreateNothing(looks, POST);
    CountConcatenates(looks, post, POST);
    var all := looks + post;
    assert forall i :: 0 <= i < |post| ==> post[i] == all[|looks| + i];
  }

  lemma EmptyWalk()
    ensures WalkRun([]) && WalkResult([]) == Err
  {
    assert Skips([]) == {};
  }

  lemma Unacknowledged()
    ensures forall c :: !Acknowledged([], c)
  {
    hide ValidDSeq;
  }

  lemma LoggedEarly()
    ensures LoggedCreate(Outcome("create-deployment", "", FailedStatus, true), Err, [], [])
  {
    assert NothingCreated([]);
    hide AllHonest, NothingCreated, Unrefused;
  }

  // A create that stops before it sends anything.
  lemma NothingDone()
    ensures WalkRun([]) && WalkResult([]) == Err
    ensures Flat([]) == [] && Count([], POST) == 0 && [] + [] + Flat([]) == []
    ensures forall c :: !Acknowledged([], c)
    ensures LoggedCreate(Outcome("create-deployment", "", FailedStatus, true), Err, [], [])
  {
    EmptyWalk();
    Unacknowledged();
    LoggedEarly();
    hide WalkRun, WalkResult, Acknowledged, LoggedCreate;
  }

  // Listings around one submission add no submission.
  lemma CreateSends(listing: seq<Exchange>, post: seq<Exchange>, walks: seq<seq<Exchange>>)
    requires WalkRun(listing) && Count(post, POST) == |post| && forall k :: 0 <= k < |walks| ==> WalkRun(walks[k])
    ensures Count(listing + post + Flat(walks), POST) == |post|
  {
    FlatReads(walks);
    hide Count, WalkRun;
    WalksOnlyRead(listing);
    ReadsCreateNothing(Flat(walks), POST);
    CountConcatenates(listing, post, POST);
    CountConcatenates(listing + post, Flat(walks), POST);
  }
}
