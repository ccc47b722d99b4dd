// Walking a paginated chain query by continuation key
// (internal/sync/querier.go: Deployments, Leases, Bids, unseenNextPageKey).
module SyncPages {
  import opened Basics

  const PAGE_LIMIT: nat := 100

  // A page: its records and the key of the next one, empty on the last page.
  datatype Page<T> = Page(records: seq<T>, next: string)

  // The node's answer to the n-th request of the walk, by continuation key;
  // the first request carries the empty key.
  type PageScript<!T> = (nat, string) -> Result<Page<T>>

  ghost predicate NoRepeats(keys: seq<string>) {
    forall i, j :: 0 <= i < j < |keys| ==> keys[i] != keys[j]
  }

  // Every continuation key the node may hand out comes from this set.
  ghost predicate KeysWithin<T>(node: PageScript<T>, universe: set<string>) {
    forall n: nat, key :: node(n, key).Ok? && node(n, key).value.next != "" ==> node(n, key).value.next in universe
  }

  // A node that pages through one list, naming offsets by distinct keys.
  ghost predicate FaithfulPages<T>(node: PageScript<T>, all: seq<T>, keyOf: nat -> string) {
    && (forall a: nat, b: nat :: keyOf(a) == keyOf(b) ==> a == b)
    && (forall a: nat :: keyOf(a) == "" <==> a == 0)
    && forall n: nat, from: nat :: from <= |all| ==>
         node(n, keyOf(from)) ==
           if from + PAGE_LIMIT < |all| then Ok(Page(all[from..from + PAGE_LIMIT], keyOf(from + PAGE_LIMIT)))
           else Ok(Page(all[from..], ""))
  }

  lemma {:induction false} NoRepeatsBound(keys: seq<string>, universe: set<string>)
    requires NoRepeats(keys) && forall i :: 0 <= i < |keys| ==> keys[i] in universe
    ensures |keys| <= |universe|
  {
    if keys != [] {
      var front, last := keys[..|keys| - 1], keys[|keys| - 1];
      NoRepeatsBound(front, universe - {last});
    }
  }

  // What a request carries is the key the answer before it gave.
  ghost predicate Leads<T>(node: PageScript<T>, n: nat, key: string, next: string) {
    node(n, key).Ok? && node(n, key).value.next == next && next != ""
  }

  // The requests of a walk: the empty key, then each answer's own key.
  ghost predicate FollowsKeys<T>(node: PageScript<T>, requested: seq<string>) {
    && requested != [] && requested[0] == ""
    && forall i, j :: 0 <= i < j < |requested| && j == i + 1 ==> Leads(node, i, requested[i], requested[j])
  }

  // The records answered to these requests, in order.
  ghost function Answered<T>(node: PageScript<T>, requested: seq<string>): seq<T> {
    if requested == [] then []
    else
      var last := |requested| - 1;
      Answered(node, requested[..last])
      + if node(last, requested[last]).Ok? then node(last, requested[last]).value.records else []
  }

  // The answer to the last request.
  ghost function Final<T>(node: PageScript<T>, requested: seq<string>): Result<Page<T>>
    requires requested != []
  {
    node(|requested| - 1, requested[|requested| - 1])
  }

  lemma AnsweredMore<T>(node: PageScript<T>, requested: seq<string>)
    requires requested != [] && Final(node, requested).Ok?
    ensures Answered(node, requested)
            == Answered(node, requested[..|requested| - 1]) + Final(node, requested).value.records
  {
  }

  lemma RouteExtends<T>(node: PageScript<T>, requested: seq<string>, next: string)
    requires FollowsKeys(node, requested) && NoRepeats(requested) && next !in requested
    requires Final(node, requested).Ok? && Final(node, requested).value.next == next != ""
    ensures FollowsKeys(node, requested + [next]) && NoRepeats(requested + [next])
    ensures (requested + [next])[..|requested|] == requested
  {
    assert Leads(node, |requested| - 1, requested[|requested| - 1], next);
  }

  lemma LastPage<T>(node: PageScript<T>, all: seq<T>, keyOf: nat -> string, n: nat, from: nat)
    requires FaithfulPages(node, all, keyOf) && from <= |all|
    requires node(n, keyOf(from)).Ok? && node(n, keyOf(from)).value.next == ""
    ensures all[..from] + node(n, keyOf(from)).value.records == all
  {
    assert keyOf(from + PAGE_LIMIT) != "";
  }

  lemma InnerPage<T>(node: PageScript<T>, all: seq<T>, keyOf: nat -> string, n: nat, from: nat)
    requires FaithfulPages(node, all, keyOf) && from <= |all|
    requires node(n, keyOf(from)).Ok? && node(n, keyOf(from)).value.next != ""
    ensures from + PAGE_LIMIT <= |all| && node(n, keyOf(from)).value.next == keyOf(from + PAGE_LIMIT)
    ensures all[..from] + node(n, keyOf(from)).value.records == all[..from + PAGE_LIMIT]
  {
  }

  lemma KeysBound(requested: seq<string>, universe: set<string>)
    requires NoRepeats(requested) && requested != []
    requires forall i :: 0 < i < |requested| ==> requested[i] in universe
    ensures |requested| <= |universe| + 1
  {
    NoRepeatsBound(requested[1..], universe);
  }

  // On a faithful node a walk of any length is at the offset its length says
  // and has every record before it.
  lemma {:induction false} FaithfulSoFar<T>(node: PageScript<T>, all: seq<T>, keyOf: nat -> string,
                                            requested: seq<string>)
    requires FaithfulPages(node, all, keyOf) && FollowsKeys(node, requested)
    ensures var n := |requested| - 1;
            && PAGE_LIMIT * n <= |all| && requested[n] == keyOf(PAGE_LIMIT * n)
            && Answered(node, requested[..n]) == all[..PAGE_LIMIT * n]
    decreases |requested|
  {
    var n := |requested| - 1;
    if n > 0 {
      var shorter := requested[..n];
      FaithfulSoFar(node, all, keyOf, shorter);
      assert Leads(node, n - 1, requested[n - 1], requested[n]);
      InnerPage(node, all, keyOf, n - 1, PAGE_LIMIT * (n - 1));
      assert shorter[..n - 1] == requested[..n - 1];
    }
  }

  // What Walk promises of its outcome leaves a faithful node one possibility:
  // its whole list, each record once and in order.
  lemma FaithfulWalk<T>(node: PageScript<T>, all: seq<T>, keyOf: nat -> string, requested: seq<string>)
    requires FaithfulPages(node, all, keyOf) && FollowsKeys(node, requested) && NoRepeats(requested)
    ensures Final(node, requested).Ok?
    ensures Final(node, requested).value.next !in requested || Final(node, requested).value.next == ""
    ensures Final(node, requested).value.next == "" ==> Answered(node, requested) == all
  {
    var n := |requested| - 1;
    FaithfulSoFar(node, all, keyOf, requested);
    if Final(node, requested).value.next == "" {
      LastPage(node, all, keyOf, n, PAGE_LIMIT * n);
    } else {
      InnerPage(node, all, keyOf, n, PAGE_LIMIT * n);
      forall i | 0 <= i <= n ensures requested[i] != Final(node, requested).value.next {
        FaithfulSoFar(node, all, keyOf, requested[..i + 1]);
        assert requested[i] == keyOf(PAGE_LIMIT * i);
        assert keyOf(PAGE_LIMIT * i) != keyOf(PAGE_LIMIT * n + PAGE_LIMIT);
      }
    }
  }

  // ---- One route per node ----

  // The route of a walk that ends at an empty key.
  ghost predicate Complete<T>(node: PageScript<T>, route: seq<string>) {
    && FollowsKeys(node, route) && NoRepeats(route)
    && Final(node, route).Ok? && Final(node, route).value.next == ""
  }

  // A walk has no reason to go on: a failed request, the last page, or a key
  // that was requested before.
  ghost predicate Stops<T>(node: PageScript<T>, route: seq<string>)
    requires route != []
  {
    Final(node, route).Err? || Final(node, route).value.next == "" || Final(node, route).value.next in route
  }

  lemma {:induction false} RoutesAgree<T>(node: PageScript<T>, a: seq<string>, b: seq<string>, n: nat)
    requires FollowsKeys(node, a) && FollowsKeys(node, b) && n < |a| && n < |b|
    ensures a[n] == b[n]
  {
    if n > 0 {
      RoutesAgree(node, a, b, n - 1);
      assert Leads(node, n - 1, a[n - 1], a[n]) && Leads(node, n - 1, b[n - 1], b[n]);
    }
  }

  lemma LongerRoute<T>(node: PageScript<T>, a: seq<string>, b: seq<string>)
    requires a != [] && |a| < |b| && FollowsKeys(node, b) && forall n :: 0 <= n < |a| ==> a[n] == b[n]
    ensures Final(node, a).Ok? && Final(node, a).value.next == b[|a|] != ""
    ensures NoRepeats(b) ==> b[|a|] !in a
  {
    var n := |a|;
    assert Leads(node, n - 1, b[n - 1], b[n]);
    forall k | 0 <= k < n && NoRepeats(b) ensures a[k] != b[n] { assert b[k] != b[n]; }
  }

  // Where a walk stands decides whether the node has a complete route, and
  // which: the walk's own, if it is at its end.
  lemma RouteDecided<T>(node: PageScript<T>, requested: seq<string>, route: seq<string>)
    requires FollowsKeys(node, requested) && Complete(node, route)
    requires Stops(node, requested)
    ensures requested == route
  {
    forall n | 0 <= n < |requested| && n < |route| ensures requested[n] == route[n] {
      RoutesAgree(node, requested, route, n);
    }
    if |route| < |requested| {
      LongerRoute(node, route, requested);
    } else if |requested| < |route| {
      LongerRoute(node, requested, route);
    }
  }

  // ---- The querier ----

  // The node as seen from its k-th request on.
  ghost function From<T>(node: PageScript<T>, k: nat): PageScript<T> {
    (n: nat, key: string) => node(k + n, key)
  }

  // The chain client shared by the walks: every request is on record.
  class Querier<T> {
    const node: PageScript<T>
    var asked: seq<string>

    constructor (node: PageScript<T>)
      ensures this.node == node && asked == []
    {
      this.node, asked := node, [];
    }

    method Request(key: string) returns (r: Result<Page<T>>)
      modifies this`asked
      ensures asked == old(asked) + [key] && r == node(|old(asked)|, key)
    {
      r := node(|asked|, key);
      asked := asked + [key];
    }

    // Follows the keys it is given until there is none, a request fails or a
    // key comes back. No key is requested twice, so a finite supply of keys
    // bounds the walk.
    method WalkKeys(ghost universe: set<string>) returns (r: Result<seq<T>>, ghost route: seq<string>)
      requires KeysWithin(node, universe)
      modifies this`asked
      ensures asked == old(asked) + route && |route| <= |universe| + 1
      ensures var seen := From(node, |old(asked)|);
              && FollowsKeys(seen, route) && NoRepeats(route) && Stops(seen, route)
              && (r.Ok? <==> Complete(seen, route)) && (r.Ok? ==> r.value == Answered(seen, route))
    {
      ghost var since := From(node, |asked|);
      var out: seq<T> := [];
      var nextKey := "";
      var seen: set<string> := {};
      route := [""];
      assert FollowsKeys(since, route) && NoRepeats(route) && Answered(since, route[..0]) == [];
      hide FollowsKeys, NoRepeats, Answered, From, Final;
      while true
        invariant route != [] && |route| == |asked| - |old(asked)| + 1 && route[|route| - 1] == nextKey
        invariant asked == old(asked) + route[..|route| - 1]
        invariant seen <= universe && forall i :: 0 < i < |route| ==> route[i] in seen
        invariant forall k :: k in seen <==> k != "" && k in route
        invariant NoRepeats(route) && FollowsKeys(since, route)
        invariant out == Answered(since, route[..|route| - 1])
        decreases universe - seen
      {
        KeysBound(route, universe);
        var page := Request(nextKey);
        assert asked == old(asked) + route;
        FinalIs(node, |old(asked)|, route);
        if page.Err? { return Err, route; }
        AnsweredMore(since, route);
        out := out + page.value.records;
        if page.value.next == "" { return Ok(out), route; }
        if page.value.next in seen { return Err, route; }
        nextKey := page.value.next;
        RouteExtends(since, route, nextKey);
        seen := seen + {nextKey};
        route := route + [nextKey];
      }
    }

    // The walk as its callers see it: it succeeds exactly on a node with a
    // complete route, having requested that, with the records along it; a
    // faithful node's list comes back whole, in order, each record once.
    method Walk(ghost universe: set<string>) returns (r: Result<seq<T>>)
      requires KeysWithin(node, universe)
      modifies this`asked
      ensures old(asked) < asked && |asked| - |old(asked)| <= |universe| + 1
      ensures var since, route := From(node, |old(asked)|), asked[|old(asked)|..];
              && FollowsKeys(since, route) && NoRepeats(route) && Stops(since, route)
              && (r.Ok? <==> Complete(since, route)) && (r.Ok? ==> r.value == Answered(since, route))
              && (forall other :: Complete(since, other) ==> r.Ok? && other == route)
      ensures forall all, keyOf :: FaithfulPages(node, all, keyOf) ==> r == Ok(all)
    {
      ghost var since := From(node, |asked|);
      ghost var route;
      r, route := WalkKeys(universe);
      assert asked[|old(asked)|..] == route;
      forall other | Complete(since, other) ensures other == route { RouteDecided(since, route, other); }
      forall all, keyOf | FaithfulPages(node, all, keyOf) ensures r == Ok(all) {
        FaithfulLater(node, |old(asked)|, all, keyOf);
        FaithfulWalk(since, all, keyOf, route);
      }
    }
  }

  lemma FinalIs<T>(node: PageScript<T>, k: nat, route: seq<string>)
    requires route != []
    ensures Final(From(node, k), route) == node(k + |route| - 1, route[|route| - 1])
  {
  }

  // A faithful node is faithful from any request on.
  lemma FaithfulLater<T>(node: PageScript<T>, k: nat, all: seq<T>, keyOf: nat -> string)
    requires FaithfulPages(node, all, keyOf)
    ensures FaithfulPages(From(node, k), all, keyOf)
  {
  }
}
