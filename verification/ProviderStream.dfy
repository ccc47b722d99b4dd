// Consuming a provider stream whose records and close reasons arrive on two
// channels (internal/provider/gateway.go).
module ProviderStream {
  import opened Basics

  // ---- The verdict ----

  function Lower(s: string): string {
    seq(|s|, i requires 0 <= i < |s| => if 'A' <= s[i] <= 'Z' then s[i] - 'A' + 'a' else s[i])
  }

  // Whether the close reason is an error.
  predicate CloseFails(reason: string, follow: bool) {
    reason != "" && (follow || !Includes(Lower(reason), "eof"))
  }

  ghost predicate EofAt(s: string, i: int) {
    0 <= i && i + 3 <= |s| && s[i] in "eE" && s[i + 1] in "oO" && s[i + 2] in "fF"
  }

  // A reason fails the stream unless it is empty or, when not following, speaks
  // of an end of file in any letter case.
  lemma CloseFailsMeans(reason: string, follow: bool)
    ensures CloseFails(reason, follow) <==> reason != "" && (follow || forall i :: !EofAt(reason, i))
  {
    forall i ensures OccursAt(Lower(reason), "eof", i) <==> EofAt(reason, i) { LowerEof(reason, i); }
  }

  lemma LowerEof(s: string, i: int)
    ensures OccursAt(Lower(s), "eof", i) <==> EofAt(s, i)
  {
    if 0 <= i && i + 3 <= |s| {
      var t := Lower(s)[i..i + 3];
      assert OccursAt(Lower(s), "eof", i) <==> t == ['e', 'o', 'f'];
      assert t == [Lower(s)[i], Lower(s)[i + 1], Lower(s)[i + 2]];
    }
  }

  // The last reason that is not empty.
  function LastReason(reasons: seq<string>): string {
    if reasons == [] then ""
    else if reasons[|reasons| - 1] != "" then reasons[|reasons| - 1]
    else LastReason(reasons[..|reasons| - 1])
  }

  // ---- Interleavings ----

  // What the loop has left to receive, and what it has done. A channel is
  // closed by its sender after its last item and then set aside.
  datatype State<T> = State(
    records: seq<T>, stream: bool, reasons: seq<string>, onClose: bool, emitted: seq<T>, reason: string)

  datatype Choice = TakeRecord | TakeReason

  function Start<T>(records: seq<T>, reasons: seq<string>): State<T> {
    State(records, true, reasons, true, [], "")
  }

  predicate Enabled<T>(s: State<T>, c: Choice) {
    match c case TakeRecord => s.stream case TakeReason => s.onClose
  }

  function Step<T>(s: State<T>, c: Choice): State<T> {
    match c
    case TakeRecord =>
      if s.records == [] then s.(stream := false)
      else s.(records := s.records[1..], emitted := s.emitted + [s.records[0]])
    case TakeReason =>
      if s.reasons == [] then s.(onClose := false)
      else s.(reasons := s.reasons[1..], reason := if s.reasons[0] != "" then s.reasons[0] else s.reason)
  }

  function Run<T>(s: State<T>, schedule: seq<Choice>): State<T>
    decreases |schedule|
  {
    if schedule == [] then s else Run(Step(s, schedule[0]), schedule[1..])
  }

  // Only open channels are received from.
  predicate Possible<T>(s: State<T>, schedule: seq<Choice>)
    decreases |schedule|
  {
    schedule == [] || (Enabled(s, schedule[0]) && Possible(Step(s, schedule[0]), schedule[1..]))
  }

  predicate Drained<T>(s: State<T>) { !s.stream && !s.onClose }

  // What the loop's progress never changes.
  ghost predicate Follows<T>(s: State<T>, all: seq<T>, seen: seq<string>, reasons: seq<string>) {
    && all == s.emitted + s.records
    && reasons == seen + s.reasons && s.reason == LastReason(seen)
    && (!s.stream ==> s.records == []) && (!s.onClose ==> s.reasons == [])
  }

  function Left<T>(s: State<T>): nat {
    |s.records| + |s.reasons| + (if s.stream then 1 else 0) + if s.onClose then 1 else 0
  }

  lemma StepFollows<T>(s: State<T>, c: Choice, all: seq<T>, seen: seq<string>, reasons: seq<string>)
    returns (after: seq<string>)
    requires Follows(s, all, seen, reasons) && Enabled(s, c)
    ensures Follows(Step(s, c), all, after, reasons) && Left(Step(s, c)) == Left(s) - 1
  {
    after := seen;
    if c.TakeReason? && s.reasons != [] {
      after := seen + [s.reasons[0]];
      assert after[..|after| - 1] == seen;
    }
  }

  lemma {:induction false} RunFollows<T>(s: State<T>, schedule: seq<Choice>, all: seq<T>, seen: seq<string>,
                                         reasons: seq<string>)
    returns (after: seq<string>)
    requires Follows(s, all, seen, reasons) && Possible(s, schedule)
    ensures Follows(Run(s, schedule), all, after, reasons) && Left(Run(s, schedule)) == Left(s) - |schedule|
    decreases |schedule|
  {
    after := seen;
    if schedule != [] {
      after := StepFollows(s, schedule[0], all, seen, reasons);
      after := RunFollows(Step(s, schedule[0]), schedule[1..], all, after, reasons);
    }
  }

  // Wherever a run is, its records were emitted in order and none is lost;
  // cut short there, it has emitted a prefix.
  lemma EmittedIsPrefix<T>(records: seq<T>, reasons: seq<string>, schedule: seq<Choice>)
    requires Possible(Start(records, reasons), schedule)
    ensures var s := Run(Start(records, reasons), schedule); s.emitted + s.records == records
    ensures |schedule| <= |records| + |reasons| + 2
  {
    var after := RunFollows(Start(records, reasons), schedule, records, [], reasons);
  }

  // Every interleaving that drains both channels ends in one state: all
  // records emitted once in order, and the last non-empty reason. It takes
  // exactly one receive per item and one per channel.
  lemma ScheduleIndependent<T>(records: seq<T>, reasons: seq<string>, schedule: seq<Choice>)
    requires Possible(Start(records, reasons), schedule)
    ensures var s := Run(Start(records, reasons), schedule);
            && (Drained(s) <==> |schedule| == |records| + |reasons| + 2)
            && (Drained(s) ==> s == State([], false, [], false, records, LastReason(reasons)))
  {
    var s := Run(Start(records, reasons), schedule);
    var after := RunFollows(Start(records, reasons), schedule, records, [], reasons);
    if Drained(s) {
      assert after == reasons;
      assert s.emitted == records;
    }
  }

  // A run that has not drained can go on.
  lemma CanContinue<T>(s: State<T>)
    ensures Drained(s) <==> forall c :: !Enabled(s, c)
  {
    assert Enabled(s, TakeRecord) == s.stream && Enabled(s, TakeReason) == s.onClose;
  }

  // ---- The loop ----

  datatype Outcome = Closed | CloseError(reason: string) | Cancelled | EmitError

  // What the environment offers at the n-th select: cancellation, or a channel
  // to receive from when both are open.
  datatype Offer = Cancel | Receive(choice: Choice)

  method ConsumeStream<T>(records: seq<T>, reasons: seq<string>, follow: bool,
                          offers: nat -> Offer, emit: nat -> bool)
    returns (outcome: Outcome, emitted: seq<T>)
    ensures emitted <= records
    ensures outcome.Closed? || outcome.CloseError? ==>
              && emitted == records
              && outcome == if CloseFails(LastReason(reasons), follow) then CloseError(LastReason(reasons)) else Closed
    ensures outcome.EmitError? ==> |emitted| < |records| && !emit(|emitted|)
    ensures outcome.Cancelled? ==> exists n: nat :: n < |records| + |reasons| + 2 && offers(n).Cancel?
    ensures (forall n :: offers(n).Receive?) && (forall n :: emit(n)) ==> outcome.Closed? || outcome.CloseError?
  {
    var received, heard := 0, 0;
    var stream, onClose := true, true;
    var closeReason := "";
    emitted := [];
    var n := 0;
    while stream || onClose
      invariant received <= |records| && emitted == records[..received] && (!stream ==> received == |records|)
      invariant heard <= |reasons| && closeReason == LastReason(reasons[..heard])
      invariant !onClose ==> heard == |reasons|
      invariant n == received + heard + (if stream then 0 else 1) + if onClose then 0 else 1
      decreases |records| - received + |reasons| - heard + (if stream then 1 else 0) + if onClose then 1 else 0
    {
      var offer := offers(n);
      n := n + 1;
      if offer.Cancel? { return Cancelled, emitted; }
      if stream && (!onClose || offer.choice.TakeRecord?) {
        if received == |records| { stream := false; continue; }
        if !emit(received) { return EmitError, emitted; }
        emitted := emitted + [records[received]];
        received := received + 1;
      } else {
        if heard == |reasons| { onClose := false; continue; }
        var reason := reasons[heard];
        assert reasons[..heard + 1][..heard] == reasons[..heard];
        heard := heard + 1;
        if reason != "" { closeReason := reason; }
      }
    }
    assert reasons[..heard] == reasons;
    if CloseFails(closeReason, follow) { return CloseError(closeReason), emitted; }
    return Closed, emitted;
  }

  // ---- Retaining the tail ----

  function RetainTail<T>(records: seq<T>, record: T, limit: int): seq<T> {
    if limit <= 0 then []
    else
      var appended := records + [record];
      if |appended| > limit then appended[|appended| - limit..] else appended
  }

  function Last<T>(s: seq<T>, n: nat): seq<T> { if |s| <= n then s else s[|s| - n..] }

  method RetainAll<T>(records: seq<T>, limit: int) returns (kept: seq<T>)
    ensures kept == if limit > 0 then Last(records, limit) else []
  {
    kept := [];
    for i := 0 to |records|
      invariant kept == if limit > 0 then Last(records[..i], limit) else []
    {
      kept := RetainTail(kept, records[i], limit);
      assert records[..i + 1] == records[..i] + [records[i]];
      if limit > 0 { LastExtends(records[..i], records[i], limit); }
    }
    assert records[..|records|] == records;
  }

  lemma LastExtends<T>(s: seq<T>, x: T, limit: nat)
    requires limit > 0
    ensures RetainTail(Last(s, limit), x, limit) == Last(s + [x], limit)
  {
  }
}
