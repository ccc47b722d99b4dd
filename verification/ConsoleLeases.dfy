// Re-filing leases under the deployments their own ids name
// (regroupLeases, internal/console/deployments.go).
module ConsoleLeases {
  import opened Basics

  datatype Lease = Lease(dseq: string, gseq: nat, oseq: nat, provider: string, state: string)
  datatype Deployment = Deployment(dseq: string, hash: string, state: string)
  datatype Item = Item(deployment: Deployment, leases: seq<Lease>)

  // All leases of a page, in the order the page lists them.
  function AllLeases(items: seq<Item>): seq<Lease> {
    if items == [] then [] else items[0].leases + AllLeases(items[1..])
  }

  // byDSeq: the last item with that sequence number owns it.
  function Owner(items: seq<Item>, dseq: string): Option<nat> {
    if items == [] then None
    else if items[|items| - 1].deployment.dseq == dseq then Some(|items| - 1)
    else Owner(items[..|items| - 1], dseq)
  }

  lemma {:induction false} OwnerIs(items: seq<Item>, dseq: string)
    ensures Owner(items, dseq).Some? ==>
              Owner(items, dseq).value < |items| && items[Owner(items, dseq).value].deployment.dseq == dseq
    ensures Owner(items, dseq).None? <==> forall i :: 0 <= i < |items| ==> items[i].deployment.dseq != dseq
  {
    if items != [] { OwnerIs(items[..|items| - 1], dseq); }
  }

  lemma {:induction false} OwnerByNumber(a: seq<Item>, b: seq<Item>, dseq: string)
    requires |a| == |b| && forall i :: 0 <= i < |a| ==> a[i].deployment == b[i].deployment
    ensures Owner(a, dseq) == Owner(b, dseq)
  {
    if a != [] { OwnerByNumber(a[..|a| - 1], b[..|b| - 1], dseq); }
  }

  // The leases that belong to item i.
  function OwnedBy(leases: seq<Lease>, items: seq<Item>, i: nat): seq<Lease> {
    if leases == [] then []
    else (if Owner(items, leases[0].dseq) == Some(i) then [leases[0]] else []) + OwnedBy(leases[1..], items, i)
  }

  function Regrouped(items: seq<Item>): (r: seq<Item>)
    ensures |r| == |items|
  {
    seq(|items|, i requires 0 <= i < |items| => items[i].(leases := OwnedBy(AllLeases(items), items, i)))
  }

  // ------------------------------------------------------------- properties

  lemma {:induction false} OwnedCount(leases: seq<Lease>, items: seq<Item>, i: nat, l: Lease)
    ensures multiset(OwnedBy(leases, items, i))[l] ==
              if Owner(items, l.dseq) == Some(i) then multiset(leases)[l] else 0
  {
    if leases != [] {
      OwnedCount(leases[1..], items, i, l);
      assert leases == [leases[0]] + leases[1..];
    }
  }

  // Every lease ends up under a deployment with its own sequence number.
  lemma RegroupedCorrectly(items: seq<Item>, i: nat, l: Lease)
    requires i < |items| && l in Regrouped(items)[i].leases
    ensures l.dseq == Regrouped(items)[i].deployment.dseq && Regrouped(items)[i].deployment == items[i].deployment
  {
    OwnedCount(AllLeases(items), items, i, l);
    assert l in multiset(Regrouped(items)[i].leases);
    OwnerIs(items, l.dseq);
  }

  lemma {:induction false} AllLeasesConcat(a: seq<Item>, b: seq<Item>)
    ensures AllLeases(a + b) == AllLeases(a) + AllLeases(b)
  {
    if a == [] {
      assert a + b == b;
    } else {
      assert (a + b)[1..] == a[1..] + b;
      assert AllLeases(a + b) == a[0].leases + AllLeases(a[1..] + b);
      assert AllLeases(a) == a[0].leases + AllLeases(a[1..]);
      hide AllLeases;
      AllLeasesConcat(a[1..], b);
    }
  }

  lemma RegroupedSnoc(items: seq<Item>, n: nat)
    requires 0 < n <= |items|
    ensures var r := Regrouped(items);
            AllLeases(r[..n]) == AllLeases(r[..n - 1]) + r[n - 1].leases
    ensures Regrouped(items)[n - 1].leases == OwnedBy(AllLeases(items), items, n - 1)
  {
    hide OwnedBy;
    var r := Regrouped(items);
    assert r[..n] == r[..n - 1] + [r[n - 1]];
    AllLeasesConcat(r[..n - 1], [r[n - 1]]);
    assert AllLeases([r[n - 1]]) == r[n - 1].leases;
  }

  lemma CountConcat<T>(a: seq<T>, b: seq<T>, x: T)
    ensures multiset(a + b)[x] == multiset(a)[x] + multiset(b)[x]
  {
  }

  // How often a lease occurs among the first n re-filed items.
  lemma {:induction false} RegroupedPrefixCount(items: seq<Item>, n: nat, l: Lease)
    requires n <= |items|
    ensures multiset(AllLeases(Regrouped(items)[..n]))[l] ==
              match Owner(items, l.dseq)
              case Some(i) => if i < n then multiset(AllLeases(items))[l] else 0
              case None => 0
  {
    assert AllLeases([]) == [];
    hide OwnedBy, Owner, Regrouped, AllLeases;
    if n == 0 {
      assert Regrouped(items)[..n] == [];
    } else {
      RegroupedSnoc(items, n);
      RegroupedPrefixCount(items, n - 1, l);
      OwnedCount(AllLeases(items), items, n - 1, l);
      CountConcat(AllLeases(Regrouped(items)[..n - 1]), Regrouped(items)[n - 1].leases, l);
    }
  }

  ghost predicate Listed(items: seq<Item>, dseq: string) {
    exists i :: 0 <= i < |items| && items[i].deployment.dseq == dseq
  }

  // Nothing is lost or invented: the kept leases are exactly those whose
  // deployment is on the page, each as often as it came.
  lemma RegroupedConserves(items: seq<Item>, l: Lease)
    ensures multiset(AllLeases(Regrouped(items)))[l] ==
              if Listed(items, l.dseq) then multiset(AllLeases(items))[l] else 0
  {
    RegroupedPrefixCount(items, |items|, l);
    assert Regrouped(items)[..|items|] == Regrouped(items);
    OwnerIs(items, l.dseq);
  }

  // The outcome does not depend on how the server paired leases with items.
  lemma PairingIrrelevant(a: seq<Item>, b: seq<Item>, i: nat)
    requires |a| == |b| && i < |a| && forall k :: 0 <= k < |a| ==> a[k].deployment == b[k].deployment
    requires multiset(AllLeases(a)) == multiset(AllLeases(b))
    ensures multiset(Regrouped(a)[i].leases) == multiset(Regrouped(b)[i].leases)
  {
    forall l ensures multiset(Regrouped(a)[i].leases)[l] == multiset(Regrouped(b)[i].leases)[l] {
      OwnedCount(AllLeases(a), a, i, l);
      OwnedCount(AllLeases(b), b, i, l);
      OwnerByNumber(a, b, l.dseq);
    }
  }

  lemma {:induction false} OwnedConcat(a: seq<Lease>, b: seq<Lease>, items: seq<Item>, i: nat)
    ensures OwnedBy(a + b, items, i) == OwnedBy(a, items, i) + OwnedBy(b, items, i)
  {
    hide Owner;
    if a == [] {
      assert a + b == b;
    } else {
      assert (a + b)[1..] == a[1..] + b;
      var first := if Owner(items, a[0].dseq) == Some(i) then [a[0]] else [];
      assert OwnedBy(a + b, items, i) == first + OwnedBy(a[1..] + b, items, i);
      assert OwnedBy(a, items, i) == first + OwnedBy(a[1..], items, i);
      hide OwnedBy;
      OwnedConcat(a[1..], b, items, i);
    }
  }

  lemma {:induction false} OwnedAgain(leases: seq<Lease>, items: seq<Item>, again: seq<Item>, i: nat, j: nat)
    requires |again| == |items| && forall k :: 0 <= k < |items| ==> again[k].deployment == items[k].deployment
    ensures OwnedBy(OwnedBy(leases, items, i), again, j) == if i == j then OwnedBy(leases, items, i) else []
  {
    if leases != [] {
      var rest := OwnedBy(leases[1..], items, i);
      OwnedAgain(leases[1..], items, again, i, j);
      OwnerByNumber(items, again, leases[0].dseq);
      if Owner(items, leases[0].dseq) == Some(i) {
        assert ([leases[0]] + rest)[1..] == rest;
      } else {
        assert [] + rest == rest;
      }
    }
  }

  lemma {:induction false} RefiledPrefix(items: seq<Item>, n: nat, j: nat)
    requires n <= |items| && j < |items|
    ensures OwnedBy(AllLeases(Regrouped(items)[..n]), Regrouped(items), j) == if j < n then Regrouped(items)[j].leases
            else []
  {
    var r := Regrouped(items);
    assert forall k :: 0 <= k < |items| ==> r[k].deployment == items[k].deployment;
    assert AllLeases([]) == [] && OwnedBy([], r, j) == [];
    hide Regrouped, AllLeases, OwnedBy;
    if n == 0 {
      assert r[..0] == [];
    } else {
      RefiledPrefix(items, n - 1, j);
      RegroupedSnoc(items, n);
      OwnedConcat(AllLeases(r[..n - 1]), r[n - 1].leases, r, j);
      OwnedAgain(AllLeases(items), items, r, n - 1, j);
      hide *;
      var mine := if j == n - 1 then r[j].leases else [];
      assert OwnedBy(r[n - 1].leases, r, j) == mine;
      assert OwnedBy(AllLeases(r[..n]), r, j) == (if j < n - 1 then r[j].leases else []) + mine;
    }
  }

  lemma RegroupedIdempotent(items: seq<Item>)
    ensures Regrouped(Regrouped(items)) == Regrouped(items)
  {
    var r := Regrouped(items);
    assert r[..|items|] == r;
    forall j | 0 <= j < |items| ensures Regrouped(r)[j] == r[j] { RefiledPrefix(items, |items|, j); }
  }

  // ------------------------------------------------------- the in-place loops

  method IndexByNumber(items: array<Item>) returns (owner: map<string, nat>)
    ensures forall d :: d in owner <==> Owner(items[..], d).Some?
    ensures forall d :: d in owner ==> Owner(items[..], d) == Some(owner[d])
  {
    owner := map[];
    for i := 0 to items.Length
      invariant forall d :: d in owner <==> Owner(items[..i], d).Some?
      invariant forall d :: d in owner ==> Owner(items[..i], d) == Some(owner[d])
    {
      assert items[..i + 1][..i] == items[..i];
      owner := owner[items[i].deployment.dseq := i];
    }
    assert items[..items.Length] == items[..];
  }

  // One item's leases, each appended to the group of its owner.
  method FileLeases(leases: seq<Lease>, owner: map<string, nat>, ghost items: seq<Item>, ghost done: seq<Lease>,
                    groups: seq<seq<Lease>>) returns (r: seq<seq<Lease>>)
    requires |groups| == |items| && forall i :: 0 <= i < |items| ==> groups[i] == OwnedBy(done, items, i)
    requires forall d :: d in owner <==> Owner(items, d).Some?
    requires forall d :: d in owner ==> Owner(items, d) == Some(owner[d]) && owner[d] < |items|
    ensures |r| == |items| && forall i :: 0 <= i < |items| ==> r[i] == OwnedBy(done + leases, items, i)
  {
    hide Owner;
    r := groups;
    assert done + leases[..0] == done;
    for k := 0 to |leases|
      invariant |r| == |items| && forall i :: 0 <= i < |items| ==> r[i] == OwnedBy(done + leases[..k], items, i)
    {
      var lease := leases[k];
      ghost var before := r;
      if lease.dseq in owner {
        var o := owner[lease.dseq];
        r := r[o := r[o] + [lease]];
      }
      forall i | 0 <= i < |items| ensures r[i] == OwnedBy(done + leases[..k + 1], items, i) {
        assert done + leases[..k + 1] == (done + leases[..k]) + [lease];
        OwnedConcat(done + leases[..k], [lease], items, i);
      }
    }
    assert leases[..|leases|] == leases;
  }

  method RegroupLeases(items: array<Item>)
    modifies items
    ensures items[..] == Regrouped(old(items[..]))
  {
    ghost var was := items[..];
    var owner := IndexByNumber(items);
    forall d | d in owner ensures owner[d] < |was| { OwnerIs(was, d); }
    var groups := seq(items.Length, _ => []);
    for i := 0 to items.Length
      invariant items[..] == was
      invariant |groups| == |was| && forall k :: 0 <= k < |was| ==> groups[k] == OwnedBy(AllLeases(was[..i]), was, k)
    {
      assert was[..i + 1] == was[..i] + [was[i]];
      AllLeasesConcat(was[..i], [was[i]]);
      assert AllLeases([was[i]]) == was[i].leases;
      groups := FileLeases(items[i].leases, owner, was, AllLeases(was[..i]), groups);
    }
    assert was[..|was|] == was;
    for i := 0 to items.Length
      invariant forall k :: 0 <= k < i ==> items[k] == Regrouped(was)[k]
      invariant forall k :: i <= k < items.Length ==> items[k] == was[k]
    {
      items[i] := items[i].(leases := groups[i]);
    }
  }
}
