// Whose deployment an ambiguous create finds, given what is really on the server
// (internal/console/deployments.go).
module ConsoleWorld {
  import opened Basics
  import opened ConsoleLeases
  import opened ConsoleWire
  import opened ConsoleRuns

  // The deployments on the server at each moment of the run.
  type World = nat -> set<Deployment>

  // Deployments come and stay, and a number names one of them.
  ghost predicate Grows(world: World) {
    && (forall m: nat, n: nat, d :: m <= n && d in world(m) ==> d in world(n))
    && (forall n: nat :: UniqueNumbers(world(n)))
  }

  ghost predicate UniqueNumbers(there: set<Deployment>) {
    forall d, e :: d in there && e in there && d.dseq == e.dseq ==> d == e
  }

  // The deployment comes into being at this moment.
  ghost predicate Appears(world: World, d: Deployment, n: nat) {
    d in world(n + 1) && d !in world(n)
  }

  // A listing that completes shows deployments that are there by its end, all
  // that were there at its start, and each once.
  ghost predicate Tells(world: World, walk: seq<Exchange>) {
    WalkResult(walk).Ok? ==>
      var items := WalkResult(walk).value;
      && (forall i :: 0 <= i < |items| ==> items[i].deployment in world(walk[|walk| - 1].at))
      && (forall d :: d in world(walk[0].at) ==> exists i :: 0 <= i < |items| && items[i].deployment == d)
      && (forall i, j :: 0 <= i < j < |items| ==> items[i].deployment.dseq != items[j].deployment.dseq)
  }

  // The submission's own deployment is new when it is made.
  ghost predicate TakesEffect(world: World, post: seq<Exchange>) {
    forall i :: 0 <= i < |post| && post[i].attempt.created.Some? ==>
      Appears(world, post[i].attempt.created.value, post[i].at)
  }

  // From the start of the snapshot on, nobody but this submission makes a
  // deployment with the hash.
  ghost predicate NobodyElse(world: World, post: seq<Exchange>, hash: string, from: nat) {
    forall n: nat, d :: from <= n && Appears(world, d, n) && d.hash == hash ==>
      exists i :: 0 <= i < |post| && post[i].at == n && post[i].attempt.created == Some(d)
  }

  // What the server is like during a create.
  ghost predicate Uncontended(world: World, listing: seq<Exchange>, post: seq<Exchange>, walks: seq<seq<Exchange>>,
                              hash: string) {
    && Grows(world) && TakesEffect(world, post)
    && Tells(world, listing) && (forall k :: 0 <= k < |walks| ==> Tells(world, walks[k]))
    && (listing != [] ==> NobodyElse(world, post, hash, listing[0].at))
  }

  // The one submission brought this deployment into being.
  ghost predicate Made(post: seq<Exchange>, dseq: string) {
    |post| == 1 && post[0].attempt.created.Some? && post[0].attempt.created.value.dseq == dseq
  }

  // A walk comes after the snapshot and the submission.
  ghost predicate After(listing: seq<Exchange>, post: seq<Exchange>, walk: seq<Exchange>) {
    && (forall i, j :: 0 <= i < |listing| && 0 <= j < |post| ==> listing[i].at < post[j].at)
    && (forall i, j :: 0 <= i < |listing| && 0 <= j < |walk| ==> listing[i].at < walk[j].at)
    && (forall i, j :: 0 <= i < |post| && 0 <= j < |walk| ==> post[i].at < walk[j].at)
    && (forall i, j :: 0 <= i < j < |listing| ==> listing[i].at < listing[j].at)
    && (forall i, j :: 0 <= i < j < |walk| ==> walk[i].at < walk[j].at)
  }

  // Something that is there later and was not earlier came at some moment.
  lemma {:induction false} Arrived(world: World, d: Deployment, start: nat, steps: nat) returns (n: nat)
    requires d in world(start + steps) && d !in world(start)
    ensures start <= n < start + steps && Appears(world, d, n)
    decreases steps
  {
    if d in world(start + 1) {
      n := start;
    } else {
      n := Arrived(world, d, start + 1, steps - 1);
    }
  }

  lemma ThereIsKnown(world: World, listing: seq<Exchange>, d: Deployment)
    requires Tells(world, listing) && WalkResult(listing).Ok? && d in world(listing[0].at)
    ensures d.dseq in Known(WalkResult(listing).value)
  {
    var items := WalkResult(listing).value;
    hide WalkResult;
    var k :| 0 <= k < |items| && items[k].deployment == d;
    assert items[k].deployment.dseq in Known(items);
  }

  // Whatever a read-back shows as new with the hash is this submission's.
  lemma NewIsOurs(world: World, listing: seq<Exchange>, post: seq<Exchange>, walk: seq<Exchange>, hash: string, i: nat)
    requires Grows(world) && Tells(world, listing) && Tells(world, walk) && |post| <= 1 && After(listing, post, walk)
    requires WalkResult(listing).Ok? && NobodyElse(world, post, hash, listing[0].at)
    requires WalkResult(walk).Ok? && i < |WalkResult(walk).value|
    requires Matches(WalkResult(walk).value[i], Known(WalkResult(listing).value), hash)
    ensures Made(post, WalkResult(walk).value[i].deployment.dseq)
    ensures post[0].attempt.created == Some(WalkResult(walk).value[i].deployment)
  {
    var d, start, end := WalkResult(walk).value[i].deployment, listing[0].at, walk[|walk| - 1].at;
    assert start <= end;
    hide WalkResult;
    if d in world(start) {
      ThereIsKnown(world, listing, d);
    } else {
      var n := Arrived(world, d, start, end - start);
      var k :| 0 <= k < |post| && post[k].at == n && post[k].attempt.created == Some(d);
      assert k == 0;
    }
  }

  // And a read-back that completes shows it, as the only one.
  lemma OursIsShown(world: World, listing: seq<Exchange>, post: seq<Exchange>, walk: seq<Exchange>, hash: string)
    requires Grows(world) && TakesEffect(world, post) && Tells(world, listing) && Tells(world, walk)
    requires |post| == 1 && After(listing, post, walk)
    requires WalkResult(listing).Ok? && NobodyElse(world, post, hash, listing[0].at) && WalkResult(walk).Ok?
    requires post[0].attempt.created.Some?
    requires post[0].attempt.created.value.hash == hash && ValidDSeq(post[0].attempt.created.value.dseq)
    ensures OnlyNew(WalkResult(walk).value, Known(WalkResult(listing).value), hash, post[0].attempt.created.value.dseq)
  {
    var d, items, known := post[0].attempt.created.value, WalkResult(walk).value, Known(WalkResult(listing).value);
    assert post[0].at + 1 <= walk[0].at;
    assert d in world(walk[0].at);
    var i :| 0 <= i < |items| && items[i].deployment == d;
    OursIsUnknown(world, listing, post, d);
    assert Matches(items[i], known, hash);
    forall j | 0 <= j < |items| && Matches(items[j], known, hash) ensures j == i {
      NewIsOurs(world, listing, post, walk, hash, j);
    }
  }

  lemma OursIsUnknown(world: World, listing: seq<Exchange>, post: seq<Exchange>, d: Deployment)
    requires Grows(world) && TakesEffect(world, post) && Tells(world, listing) && WalkResult(listing).Ok?
    requires |post| == 1 && post[0].attempt.created == Some(d) && listing[|listing| - 1].at < post[0].at
    ensures d.dseq !in Known(WalkResult(listing).value)
  {
    var items := WalkResult(listing).value;
    hide WalkResult;
    forall k | 0 <= k < |items| ensures items[k].deployment.dseq != d.dseq {
      var e := items[k].deployment;
      assert e in world(post[0].at) && e in world(post[0].at + 1);
    }
  }

  // What a create is worth on such a server: a deployment found by the read-backs
  // is the one this submission made, and when it made one with the hash and
  // found none, no read-back ever completed.
  ghost predicate Worth(r: Result<Created>, post: seq<Exchange>, walks: seq<seq<Exchange>>, hash: string) {
    && (r.Ok? && walks != [] ==> Made(post, r.value.dseq))
    && (r.Err? && |post| == 1 && post[0].attempt.created.Some? && post[0].attempt.created.value.hash == hash
        && ValidDSeq(post[0].attempt.created.value.dseq) ==>
          forall k :: 0 <= k < |walks| ==> WalkResult(walks[k]).Err?)
  }

  lemma CreateIsWorth(world: World, script: Script, step: nat, before: seq<Exchange>, listing: seq<Exchange>,
                      post: seq<Exchange>, walks: seq<seq<Exchange>>, hash: string, r: Result<Created>)
    requires Played(script, step, before + listing + post + Flat(walks)) && |post| <= 1 && WalkResult(listing).Ok?
    requires walks != [] && LookedFor(walks, Known(WalkResult(listing).value), hash)
    requires r.Ok? ==> FoundOnly(walks, Known(WalkResult(listing).value), hash, r.value.dseq)
    requires r.Err? ==> forall d :: !FoundOnly(walks, Known(WalkResult(listing).value), hash, d)
    requires Uncontended(world, listing, post, walks, hash)
    ensures Worth(r, post, walks, hash)
  {
    var known, last := Known(WalkResult(listing).value), |walks| - 1;
    hide Known, Played, Grows, TakesEffect, Tells, NobodyElse, Matches;
    forall k | 0 <= k < |walks| ensures After(listing, post, walks[k]) {
      WalksComeAfter(script, step, before, listing, post, walks, k);
    }
    if r.Ok? {
      var items := WalkResult(walks[last]).value;
      var i :| 0 <= i < |items| && Matches(items[i], known, hash) && items[i].deployment.dseq == r.value.dseq;
      NewIsOurs(world, listing, post, walks[last], hash, i);
    } else if |post| == 1 && post[0].attempt.created.Some? && post[0].attempt.created.value.hash == hash
              && ValidDSeq(post[0].attempt.created.value.dseq) {
      forall k | 0 <= k < |walks| ensures WalkResult(walks[k]).Err? {
        if WalkResult(walks[k]).Ok? { ShownIsFound(world, listing, post, walks, hash, k); }
      }
    }
  }

  // A completed read-back that shows the submission's deployment is the last
  // and has found it.
  lemma ShownIsFound(world: World, listing: seq<Exchange>, post: seq<Exchange>, walks: seq<seq<Exchange>>,
                     hash: string, k: nat)
    requires k < |walks| && WalkResult(walks[k]).Ok? && |post| == 1 && After(listing, post, walks[k])
    requires Uncontended(world, listing, post, walks, hash) && WalkResult(listing).Ok?
    requires LookedFor(walks, Known(WalkResult(listing).value), hash)
    requires post[0].attempt.created.Some? && post[0].attempt.created.value.hash == hash
    requires ValidDSeq(post[0].attempt.created.value.dseq)
    ensures exists d :: FoundOnly(walks, Known(WalkResult(listing).value), hash, d)
  {
    var known, d := Known(WalkResult(listing).value), post[0].attempt.created.value.dseq;
    OursIsShown(world, listing, post, walks[k], hash);
    hide Known, Matches, ValidDSeq;
    assert !NoneNew(WalkResult(walks[k]).value, known, hash);
    assert FoundOnly(walks, known, hash, d);
  }

  lemma WalksComeAfter(script: Script, step: nat, before: seq<Exchange>, listing: seq<Exchange>, post: seq<Exchange>,
                       walks: seq<seq<Exchange>>, k: nat)
    requires Played(script, step, before + listing + post + Flat(walks)) && k < |walks|
    ensures After(listing, post, walks[k])
  {
    hide *;
    var all := before + listing + post + Flat(walks);
    var at := FlatHas(walks, k);
    var l, p, w := |before|, |before + listing|, |before + listing + post| + at;
    Pieces(before, listing, post, Flat(walks), walks[k], at);
    InOrder(script, step, all, listing, l, post, p);
    InOrder(script, step, all, listing, l, walks[k], w);
    InOrder(script, step, all, post, p, walks[k], w);
    Ascends(script, step, all, listing, l);
    Ascends(script, step, all, walks[k], w);
    AfterIs(listing, post, walks[k]);
  }

  lemma Pieces(before: seq<Exchange>, listing: seq<Exchange>, post: seq<Exchange>, flat: seq<Exchange>,
               walk: seq<Exchange>, at: nat)
    requires PieceAt(flat, walk, at)
    ensures PieceAt(before + listing + post + flat, listing, |before|)
    ensures PieceAt(before + listing + post + flat, post, |before + listing|)
    ensures PieceAt(before + listing + post + flat, walk, |before + listing + post| + at)
  {
    assert PieceAt(listing, listing, 0) && PieceAt(post, post, 0);
    hide PieceAt;
    PieceStays(before, listing, listing, 0);
    PieceStays(before + listing, post, post, 0);
    PieceStays(before + listing + post, flat, walk, at);
    PieceBefore(before + listing, post, listing, |before|);
    PieceBefore(before + listing + post, flat, listing, |before|);
    PieceBefore(before + listing + post, flat, post, |before + listing|);
  }

  lemma AfterIs(listing: seq<Exchange>, post: seq<Exchange>, walk: seq<Exchange>)
    requires forall i, j :: 0 <= i < |listing| && 0 <= j < |post| ==> listing[i].at < post[j].at
    requires forall i, j :: 0 <= i < |listing| && 0 <= j < |walk| ==> listing[i].at < walk[j].at
    requires forall i, j :: 0 <= i < |post| && 0 <= j < |walk| ==> post[i].at < walk[j].at
    requires forall i, j :: 0 <= i < j < |listing| ==> listing[i].at < listing[j].at
    requires forall i, j :: 0 <= i < j < |walk| ==> walk[i].at < walk[j].at
    ensures After(listing, post, walk)
  {
  }

  ghost predicate PieceAt(all: seq<Exchange>, piece: seq<Exchange>, at: nat) {
    at + |piece| <= |all| && forall i :: 0 <= i < |piece| ==> all[at + i] == piece[i]
  }

  lemma PieceStays(a: seq<Exchange>, b: seq<Exchange>, piece: seq<Exchange>, at: nat)
    requires PieceAt(b, piece, at)
    ensures PieceAt(a + b, piece, |a| + at)
  {
    forall i | 0 <= i < |piece| ensures (a + b)[|a| + at + i] == piece[i] { assert b[at + i] == piece[i]; }
  }

  lemma PieceBefore(a: seq<Exchange>, b: seq<Exchange>, piece: seq<Exchange>, at: nat)
    requires PieceAt(a, piece, at)
    ensures PieceAt(a + b, piece, at)
  {
  }

  lemma InOrder(script: Script, step: nat, all: seq<Exchange>, x: seq<Exchange>, a: nat, y: seq<Exchange>, b: nat)
    requires Played(script, step, all) && PieceAt(all, x, a) && PieceAt(all, y, b) && a + |x| <= b
    ensures forall i, j :: 0 <= i < |x| && 0 <= j < |y| ==> x[i].at < y[j].at
  {
    forall i, j | 0 <= i < |x| && 0 <= j < |y| ensures x[i].at < y[j].at { assert all[a + i].at < all[b + j].at; }
  }

  lemma Ascends(script: Script, step: nat, all: seq<Exchange>, x: seq<Exchange>, a: nat)
    requires Played(script, step, all) && PieceAt(all, x, a)
    ensures forall i, j :: 0 <= i < j < |x| ==> x[i].at < x[j].at
  {
    forall i, j | 0 <= i < j < |x| ensures x[i].at < x[j].at { assert all[a + i].at < all[a + j].at; }
  }

  lemma {:induction false} FlatHas(walks: seq<seq<Exchange>>, k: nat) returns (at: nat)
    requires k < |walks|
    ensures PieceAt(Flat(walks), walks[k], at)
    decreases |walks|
  {
    var front, last := walks[..|walks| - 1], walks[|walks| - 1];
    if k == |walks| - 1 {
      at := |Flat(front)|;
      assert PieceAt(last, last, 0);
      PieceStays(Flat(front), last, last, 0);
    } else {
      at := FlatHas(front, k);
      PieceBefore(Flat(front), last, walks[k], at);
    }
  }
}
