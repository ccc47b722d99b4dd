// What one HTTP exchange with the Console means to the client
// (internal/console/client.go and the classifiers of deployments.go and
// deployment_secrets.go).
module ConsoleWire {
  import opened Basics
  import opened ConsoleLeases

  datatype Verb = GET | HEAD | POST | PUT | PATCH | DELETE

  datatype Target =
    | DeploymentPage(skip: int, limit: int)
    | OneDeployment(dseq: string)
    | NewDeployment
    | NewLease
    | SecretsContext

  datatype Request = Request(verb: Verb, target: Target)

  // ---------------------------------------------------------- response bodies

  datatype Page = Page(items: seq<Item>, skip: int, limit: int, hasMore: bool)
  datatype Receipt = Receipt(code: Option<int>, hashBlank: bool)
  datatype Created = Created(dseq: string, manifest: string, receipt: Option<Receipt>)
  datatype Definition = Definition(sdl: string, manifestVersion: string)
  datatype Detail = Detail(deployment: Deployment, leases: seq<Lease>, name: Option<string>,
                           manifestVersion: string, definition: Option<Definition>)

  datatype Body =
    | Empty
    | Undecodable
    | NoData
    | PageBody(page: Page)
    | CreatedBody(result: Created)
    | DetailBody(detail: Detail)
    | KeyBody(usable: bool)
    | ErrorBody(text: string, code: string)

  datatype Reply = NoResponse | Response(status: int, body: Body)

  // One attempt as the environment plays it: whether the caller's context was
  // already done, what came back, and what the server really did. The client
  // never sees `created`.
  datatype Attempt = Attempt(cancelled: bool, reply: Reply, created: Option<Deployment>)

  // A request on the wire, with the moment it was sent.
  datatype Exchange = Exchange(at: nat, request: Request, attempt: Attempt)

  // How the environment plays the n-th moment of a run.
  type Script = (nat, Request) -> Attempt

  // Every exchange happened, in this order, before the moment `step`.
  ghost predicate Played(script: Script, step: nat, wire: seq<Exchange>) {
    && (forall i :: 0 <= i < |wire| ==>
          wire[i].at < step && wire[i].attempt == script(wire[i].at, wire[i].request) && !wire[i].attempt.cancelled)
    && forall i, j :: 0 <= i < j < |wire| ==> wire[i].at < wire[j].at
  }

  // The caller gave up on the request at some moment in between.
  ghost predicate GaveUp(script: Script, clock: nat -> bool, from: nat, to: nat, req: Request) {
    exists n :: from <= n < to && (!clock(n) || script(n, req).cancelled)
  }

  lemma GaveUpWithin(script: Script, clock: nat -> bool, from: nat, to: nat, earlier: nat, req: Request)
    requires GaveUp(script, clock, from, to, req) && earlier <= from
    ensures GaveUp(script, clock, earlier, to, req)
  {
  }

  lemma GaveUpUntil(script: Script, clock: nat -> bool, from: nat, to: nat, later: nat, req: Request)
    requires GaveUp(script, clock, from, to, req) && to <= later
    ensures GaveUp(script, clock, from, later, req)
  {
  }

  // ------------------------------------------------------------------ failures

  datatype Failure = Unauthorized | InsufficientFunds | NotFound | Http(status: int, text: string, code: string) | Other

  datatype Data = Got(body: Body) | Failed(failure: Failure)

  predicate Idempotent(v: Verb) {
    v.GET? || v.HEAD? || v.PUT? || v.DELETE?
  }

  predicate RetryableStatus(v: Verb, status: int) {
    (status == 429 || status >= 500) && Idempotent(v)
  }

  const LEASE_CODES: set<string> := {"manifest_not_delivered", "provider_unreachable"}

  function Text(b: Body): string { if b.ErrorBody? then b.text else "" }

  function Code(b: Body): string { if b.ErrorBody? then b.code else "" }

  datatype Verdict = Finish(data: Data) | TryAgain

  // doJSON's switch on one reply, with doData's envelope check.
  function Interpret(req: Request, reply: Reply): Verdict {
    match reply
    case NoResponse => Finish(Failed(Other))
    case Response(s, b) =>
      if req == Request(POST, NewLease) && s >= 400
         && Code(b) in LEASE_CODES then Finish(Failed(Http(s, Code(b), Code(b))))
      else if 200 <= s < 300 then
        if b.Empty? || b.Undecodable? || b.NoData? || b.ErrorBody? then Finish(Failed(Other)) else Finish(Got(b))
      else if s == 401 then Finish(Failed(Unauthorized))
      else if s == 402 then Finish(Failed(InsufficientFunds))
      else if s == 404 then Finish(Failed(NotFound))
      else if s == 429 || s >= 500 then (if RetryableStatus(req.verb, s) then TryAgain else Finish(Failed(Other)))
      else if 300 <= s < 400 then Finish(Failed(Other))
      else Finish(Failed(Http(s, Text(b), Code(b))))
  }

  // definitiveCreateFailure
  predicate Definitive(f: Failure) {
    match f
    case Unauthorized => true
    case InsufficientFunds => true
    case NotFound => true
    case Http(s, _, _) => 400 <= s < 500 && s != 429
    case Other => false
  }

  const KNOWN_CODES: set<string> :=
    {"deployment_definition_changed", "deployment_resources_changed", "stored_secrets_unreadable",
     "stored_sdl_unreadable", "inherited_secrets_unreadable", "deployment_definition_exists",
     "deployment_definition_mismatch", "manifest_not_delivered", "provider_unreachable"}

  // sanitizeSecretError
  function Sanitized(f: Failure): Failure {
    match f
    case Http(s, text, code) =>
      var c := if code == "" then text else code;
      var shown := if c in KNOWN_CODES then c else "sensitive response details omitted";
      Http(s, shown, shown)
    case _ => f
  }

  function SanitizedData(d: Data): Data {
    if d.Failed? then Failed(Sanitized(d.failure)) else d
  }

  lemma SanitizingKeepsVerdict(f: Failure)
    ensures Definitive(Sanitized(f)) == Definitive(f)
  {
  }

  // A reply the client may take as proof of refusal: 4xx other than 429.
  predicate Refusal(reply: Reply) {
    reply.Response? && 400 <= reply.status < 500 && reply.status != 429
  }

  // The server's side of that: a refused request was not applied.
  predicate Honest(x: Exchange) {
    Refusal(x.attempt.reply) ==> x.attempt.created.None?
  }

  lemma DefinitiveMeansRefused(req: Request, reply: Reply)
    requires Interpret(req, reply).Finish? && Interpret(req, reply).data.Failed?
    requires Definitive(Interpret(req, reply).data.failure)
    ensures Refusal(reply)
  {
  }

  lemma RefusedMeansDefinitive(req: Request, reply: Reply)
    requires Refusal(reply) && Interpret(req, reply).Finish?
    ensures Interpret(req, reply).data.Failed? && Definitive(Interpret(req, reply).data.failure)
  {
  }

  // None of the submissions was answered with a refusal.
  ghost predicate Unrefused(sent: seq<Exchange>) {
    forall i :: 0 <= i < |sent| && sent[i].request.verb.POST? ==> !Refusal(sent[i].attempt.reply)
  }

  // ------------------------------------------------------------------ counting

  function Count(sent: seq<Exchange>, v: Verb): nat {
    if sent == [] then 0 else (if sent[0].request.verb == v then 1 else 0) + Count(sent[1..], v)
  }

  lemma {:induction false} CountConcatenates(a: seq<Exchange>, b: seq<Exchange>, v: Verb)
    ensures Count(a + b, v) == Count(a, v) + Count(b, v)
  {
    if a == [] {
      assert a + b == b;
    } else {
      CountConcatenates(a[1..], b, v);
      assert (a + b)[1..] == a[1..] + b;
    }
  }

  ghost predicate AllVerb(sent: seq<Exchange>, v: Verb) {
    forall i :: 0 <= i < |sent| ==> sent[i].request.verb == v
  }

  lemma {:induction false} CountUniform(sent: seq<Exchange>, v: Verb, w: Verb)
    requires AllVerb(sent, v)
    ensures Count(sent, w) == if v == w then |sent| else 0
  {
    if sent != [] { CountUniform(sent[1..], v, w); }
  }

  // No deployment came into being during these exchanges.
  ghost predicate NothingCreated(sent: seq<Exchange>) {
    forall i :: 0 <= i < |sent| && sent[i].request == Request(POST, NewDeployment) ==> sent[i].attempt.created.None?
  }

  ghost predicate AllHonest(sent: seq<Exchange>) {
    forall i :: 0 <= i < |sent| ==> Honest(sent[i])
  }

  // ---------------------------------------------------------------- validation

  // strconv.ParseUint(dseq, 10, 64) yields a positive number.
  predicate ValidDSeq(dseq: string) {
    && dseq != []
    && (forall i :: 0 <= i < |dseq| ==> '0' <= dseq[i] <= '9')
    && 0 < ParseDigits(dseq) < 0x1_0000_0000_0000_0000
  }

  // validateCreateDeploymentResult
  predicate ValidCreated(c: Created) {
    && ValidDSeq(c.dseq)
    && c.receipt.Some? && c.receipt.value.code == Some(0) && !c.receipt.value.hashBlank
  }

  function LowerChar(c: char): char {
    if 'A' <= c <= 'Z' then (c as int + 32) as char else c
  }

  function Lower(s: string): string {
    seq(|s|, i requires 0 <= i < |s| => LowerChar(s[i]))
  }

  // isTransientManifestVersionError
  predicate Transient(f: Failure) {
    f.Http? && f.status == 422 && Includes(Lower(f.text), "manifest version validation failed")
  }

  datatype LeaseRequest = LeaseRequest(dseq: string, gseq: nat, oseq: nat, provider: string)

  predicate Fulfils(l: Lease, r: LeaseRequest) {
    l.dseq == r.dseq && l.gseq == r.gseq && l.oseq == r.oseq && l.provider == r.provider && Lower(l.state) == "active"
  }

  predicate Answered(actual: seq<Lease>, r: LeaseRequest) {
    exists j :: 0 <= j < |actual| && Fulfils(actual[j], r)
  }

  predicate LeasesActive(actual: seq<Lease>, requested: seq<LeaseRequest>) {
    requested != [] && forall i :: 0 <= i < |requested| ==> Answered(actual, requested[i])
  }

  // ----------------------------------------------------------------- action log

  datatype Status = Success | FailedStatus | Pending
  datatype Entry = Entry(action: string, dseq: string, status: Status, error: bool)

  // recordOutcome: an error downgrades "success" to "failed".
  function Outcome(action: string, dseq: string, status: Status, error: bool): Entry {
    Entry(action, dseq, if error && status.Success? then FailedStatus else status, error)
  }
}
