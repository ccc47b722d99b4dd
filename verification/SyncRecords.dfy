// Records of the local store, their keys, and the two ways the sync engine
// writes them (internal/store/store.go, internal/sync/reconcile.go, engine.go).
module SyncRecords {
  import opened Basics

  datatype DeploymentRecord = DeploymentRecord(
    owner: string, dseq: nat, state: string, version: string,
    escrowBalance: string, transferred: string, createdHeight: int,
    local: LocalDeployment,
    createdAt: int, updatedAt: int, closedAt: int, recordVersion: nat)

  // What the chain does not carry.
  datatype LocalDeployment = LocalDeployment(
    sdlHash: string, sdlPath: string, deposit: string,
    labels: map<string, string>, notes: string, tags: seq<string>)

  const NothingLocal: LocalDeployment := LocalDeployment("", "", "", map[], "", [])

  type uint32 = n: nat | n < 0x1_0000_0000
  type uint64 = n: nat | n < 0x1_0000_0000_0000_0000

  datatype Id = Id(owner: string, dseq: uint64, gseq: uint32, oseq: uint32, provider: string)

  datatype LeaseRecord = LeaseRecord(
    id: Id, state: string, price: string, providerUri: string, endpoints: seq<string>,
    createdAt: int, closedAt: int, recordVersion: nat)

  datatype BidRecord = BidRecord(
    id: Id, state: string, price: string, attributes: Option<map<string, string>>, audited: bool,
    createdAt: int, recordVersion: nat)

  // --------------------------------------------------------------------- keys

  function DeploymentKey(owner: string, dseq: nat): string {
    owner + ":" + Decimal(dseq)
  }

  // LeaseKey and BidKey are the same join.
  function RecordKey(id: Id): string {
    id.owner + ":" + Numbers(id.dseq, id.gseq, id.oseq, id.provider)
  }

  // Three numbers and what follows them.
  function Numbers(l: nat, m: nat, n: nat, rest: string): string {
    Decimal(l) + ":" + (Decimal(m) + ":" + (Decimal(n) + ":" + rest))
  }

  predicate ColonFree(s: string) {
    forall i :: 0 <= i < |s| ==> s[i] != ':'
  }

  lemma DecimalColonFree(n: nat)
    ensures ColonFree(Decimal(n))
  {
  }

  // The first separator splits a joined key in only one way.
  lemma SplitFirst(a: string, b: string, c: string, d: string)
    requires ColonFree(a) && ColonFree(c) && a + ":" + b == c + ":" + d
    ensures a == c && b == d
  {
    var s, t := a + ":" + b, c + ":" + d;
    assert s[|a|] == ':' && t[|c|] == ':';
    assert forall i :: 0 <= i < |a| ==> s[i] == a[i];
    assert forall i :: 0 <= i < |c| ==> t[i] == c[i];
    assert |a| == |c|;
    assert a == s[..|a|] && c == t[..|c|];
    assert b == s[|a| + 1..] && d == t[|c| + 1..];
  }

  // So does the last one.
  lemma SplitLast(a: string, b: string, c: string, d: string)
    requires ColonFree(b) && ColonFree(d) && a + ":" + b == c + ":" + d
    ensures a == c && b == d
  {
    var s, t := a + ":" + b, c + ":" + d;
    assert s[|a|] == ':' && t[|c|] == ':';
    assert forall i :: |a| < i < |s| ==> s[i] == b[i - |a| - 1];
    assert forall i :: |c| < i < |t| ==> t[i] == d[i - |c| - 1];
    assert |a| == |c|;
    assert a == s[..|a|] && c == t[..|c|];
    assert b == s[|a| + 1..] && d == t[|c| + 1..];
  }

  // Deployment keys are injective for every owner, colons included.
  lemma DeploymentKeyInjective(o: string, d: nat, p: string, e: nat)
    requires DeploymentKey(o, d) == DeploymentKey(p, e)
    ensures o == p && d == e
  {
    DecimalColonFree(d);
    DecimalColonFree(e);
    SplitLast(o, Decimal(d), p, Decimal(e));
    DecimalInjective(d, e);
  }

  lemma RecordKeyInjective(a: Id, b: Id)
    requires ColonFree(a.owner) && ColonFree(b.owner) && RecordKey(a) == RecordKey(b)
    ensures a == b
  {
    forall n ensures ColonFree(Decimal(n)) { DecimalColonFree(n); }
    var a3, b3 := Decimal(a.oseq) + ":" + a.provider, Decimal(b.oseq) + ":" + b.provider;
    var a2, b2 := Decimal(a.gseq) + ":" + a3, Decimal(b.gseq) + ":" + b3;
    var a1, b1 := Decimal(a.dseq) + ":" + a2, Decimal(b.dseq) + ":" + b2;
    SplitFirst(a.owner, a1, b.owner, b1);
    SplitFirst(Decimal(a.dseq), a2, Decimal(b.dseq), b2);
    SplitFirst(Decimal(a.gseq), a3, Decimal(b.gseq), b3);
    SplitFirst(Decimal(a.oseq), a.provider, Decimal(b.oseq), b.provider);
    DecimalInjective(a.dseq, b.dseq);
    DecimalInjective(a.gseq, b.gseq);
    DecimalInjective(a.oseq, b.oseq);
  }

  // Colon-free providers separate ids just as well.
  lemma RecordKeyInjectiveByProvider(a: Id, b: Id)
    requires ColonFree(a.provider) && ColonFree(b.provider) && RecordKey(a) == RecordKey(b)
    ensures a == b
  {
    hide AmbiguousOwner, AmbiguousProvider, RecordKey, ColonFree;
    ColonFreeProvider(a);
    ColonFreeProvider(b);
    if a != b {
      LongerOwner(a, b);
      LongerOwner(b, a);
    }
  }

  // ---- Exactly which ids share their key with another

  ghost predicate EndsInNumber(s: string) { exists o, n: uint64 :: s == o + ":" + Decimal(n) }

  ghost predicate StartsWithNumber(s: string) { exists n: uint32, p :: s == Decimal(n) + ":" + p }

  // The numbers of an id in a row inside, between colons.
  ghost predicate HoldsNumbers(s: string) {
    exists u, l: uint64, m: uint32, n: uint32, v :: s == u + ":" + Numbers(l, m, n, v)
  }

  // The last number of the owner can move only where it pushes the deployment's
  // own into a field of 32 bits; three numbers move as a block.
  ghost predicate AmbiguousOwner(b: Id) {
    (b.dseq < 0x1_0000_0000 && EndsInNumber(b.owner)) || HoldsNumbers(b.owner + ":")
  }

  ghost predicate AmbiguousProvider(b: Id) { StartsWithNumber(b.provider) || HoldsNumbers(":" + b.provider) }

  ghost predicate HasTwin(b: Id) { exists a: Id :: a != b && RecordKey(a) == RecordKey(b) }

  lemma HasColon(a: string, b: string)
    ensures !ColonFree(a + ":" + b)
  {
    assert (a + ":" + b)[|a|] == ':';
  }

  lemma ColonFreeProvider(b: Id)
    requires ColonFree(b.provider)
    ensures !AmbiguousProvider(b)
  {
    hide ColonFree, Decimal;
    forall n, p ensures b.provider != Decimal(n) + ":" + p { HasColon(Decimal(n), p); }
    forall u, l: uint64, m: uint32, n: uint32, v ensures ":" + b.provider != u + ":" + Numbers(l, m, n, v) {
      if ":" + b.provider == u + ":" + Numbers(l, m, n, v) { InnerColon(b.provider, u, l, m, n, v); }
    }
  }

  lemma InnerColon(s: string, u: string, l: nat, m: nat, n: nat, v: string)
    requires ":" + s == u + ":" + Numbers(l, m, n, v)
    ensures !ColonFree(s)
  {
    hide Decimal;
    var at := |u| + 1 + |Decimal(l)|;
    assert (u + ":" + Numbers(l, m, n, v))[at] == ':';
    assert (":" + s)[at] == s[at - 1];
  }

  // Of two splits at a colon, the later one splits what follows the earlier.
  lemma LaterSplit(a: string, r: string, b: string, t: string) returns (y: string)
    requires a + ":" + r == b + ":" + t && |a| < |b|
    ensures b == a + ":" + y && y + ":" + t == r
  {
    var s := b + ":" + t;
    y := b[|a| + 1..];
    assert s == a + ":" + r;
    assert b == s[..|b|] && s[..|a|] == a && s[|a|] == ':' && s[|a| + 1..] == r;
    assert b[..|a|] == a && b[|a|] == ':';
    assert r == s[|a| + 1..|b|] + s[|b|..];
    assert s[|b|..] == ":" + t;
  }

  // A number at the front is all of the other first part, or starts it.
  lemma PeelNumber(x: string, rest: string, n: nat, tail: string) returns (y: Option<string>)
    requires x + ":" + rest == Decimal(n) + ":" + tail
    ensures y.None? ==> x == Decimal(n) && rest == tail
    ensures y.Some? ==> x == Decimal(n) + ":" + y.value && y.value + ":" + rest == tail
  {
    DecimalColonFree(n);
    var d, s := Decimal(n), x + ":" + rest;
    hide Decimal;
    assert s[|x|] == ':' && forall i :: 0 <= i < |d| ==> s[i] == d[i] != ':';
    assert |d| <= |x|;
    if |x| == |d| {
      assert x == (x + ":" + rest)[..|x|] && d == (d + ":" + tail)[..|d|];
      assert rest == (x + ":" + rest)[|x| + 1..] && tail == (d + ":" + tail)[|d| + 1..];
      y := None;
    } else {
      var z := LaterSplit(d, tail, x, rest);
      y := Some(z);
    }
  }

  lemma SamePart(b: Id, c: Id)
    requires |b.owner| == |c.owner| && RecordKey(b) == RecordKey(c)
    ensures b == c
  {
    var x, y := Numbers(b.dseq, b.gseq, b.oseq, b.provider), Numbers(c.dseq, c.gseq, c.oseq, c.provider);
    assert b.owner == RecordKey(b)[..|b.owner|] && c.owner == RecordKey(c)[..|c.owner|];
    assert x == RecordKey(b)[|b.owner| + 1..] && y == RecordKey(c)[|c.owner| + 1..];
    NumbersInjective(b.dseq, b.gseq, b.oseq, b.provider, c.dseq, c.gseq, c.oseq, c.provider);
  }

  lemma NumbersInjective(l: nat, m: nat, n: nat, p: string, i: nat, j: nat, k: nat, q: string)
    requires Numbers(l, m, n, p) == Numbers(i, j, k, q)
    ensures l == i && m == j && n == k && p == q
  {
    forall x ensures ColonFree(Decimal(x)) { DecimalColonFree(x); }
    hide Decimal;
    var a3, b3 := Decimal(n) + ":" + p, Decimal(k) + ":" + q;
    var a2, b2 := Decimal(m) + ":" + a3, Decimal(j) + ":" + b3;
    SplitFirst(Decimal(l), a2, Decimal(i), b2);
    SplitFirst(Decimal(m), a3, Decimal(j), b3);
    SplitFirst(Decimal(n), p, Decimal(k), q);
    DecimalInjective(l, i);
    DecimalInjective(m, j);
    DecimalInjective(n, k);
  }

  // Where the later split comes after one or two numbers of the earlier, its own
  // first number is one of 32 bits there; else the earlier's three are before it.
  lemma OwnerSplits(a: Id, b: Id, y: string)
    requires b.owner == a.owner + ":" + y
    requires y + ":" + Numbers(b.dseq, b.gseq, b.oseq, b.provider) == Numbers(a.dseq, a.gseq, a.oseq, a.provider)
    ensures AmbiguousOwner(b)
  {
    hide Decimal;
    var t := Numbers(b.dseq, b.gseq, b.oseq, b.provider);
    var t1 := Decimal(b.gseq) + ":" + (Decimal(b.oseq) + ":" + b.provider);
    var p2 := Decimal(a.oseq) + ":" + a.provider;
    var p1 := Decimal(a.gseq) + ":" + p2;
    var first := PeelNumber(y, t, a.dseq, p1);
    if first.None? {
      NumberThen(b.dseq, t1, a.gseq, p2);
      assert b.owner == a.owner + ":" + Decimal(a.dseq);
    } else {
      var second := PeelNumber(first.value, t, a.gseq, p2);
      if second.None? {
        NumberThen(b.dseq, t1, a.oseq, a.provider);
        assert b.owner == (a.owner + ":" + Decimal(a.dseq)) + ":" + Decimal(a.gseq);
      } else {
        var third := PeelNumber(second.value, t, a.oseq, a.provider);
        var v := if third.None? then "" else third.value + ":";
        assert y + ":" == Numbers(a.dseq, a.gseq, a.oseq, v);
        assert b.owner + ":" == a.owner + ":" + Numbers(a.dseq, a.gseq, a.oseq, v);
      }
    }
  }

  // What follows the numbers of the earlier split starts with a number of 32
  // bits, or holds all three numbers of the later one.
  lemma ProviderSplits(a: Id, b: Id, y: string)
    requires y + ":" + Numbers(b.dseq, b.gseq, b.oseq, b.provider) == Numbers(a.dseq, a.gseq, a.oseq, a.provider)
    ensures AmbiguousProvider(a)
  {
    hide Decimal;
    var p, t := a.provider, Numbers(b.dseq, b.gseq, b.oseq, b.provider);
    var q2 := Decimal(b.oseq) + ":" + b.provider;
    var q1 := Decimal(b.gseq) + ":" + q2;
    var p2 := Decimal(a.oseq) + ":" + p;
    var p1 := Decimal(a.gseq) + ":" + p2;
    var first := PeelNumber(y, t, a.dseq, p1);
    if first.None? {
      NumberThen(b.dseq, q1, a.gseq, p2);
      NumberThen(b.gseq, q2, a.oseq, p);
    } else {
      var second := PeelNumber(first.value, t, a.gseq, p2);
      if second.None? {
        NumberThen(b.dseq, q1, a.oseq, p);
      } else {
        var third := PeelNumber(second.value, t, a.oseq, p);
        var u := if third.None? then "" else ":" + third.value;
        assert ":" + p == u + ":" + t;
      }
    }
  }

  lemma NumberThen(i: nat, q: string, n: nat, p: string)
    requires Decimal(i) + ":" + q == Decimal(n) + ":" + p
    ensures i == n && q == p
  {
    DecimalColonFree(i);
    DecimalColonFree(n);
    SplitFirst(Decimal(i), q, Decimal(n), p);
    DecimalInjective(i, n);
  }

  lemma LongerOwner(a: Id, b: Id)
    requires a != b && RecordKey(a) == RecordKey(b)
    ensures |a.owner| != |b.owner|
    ensures |a.owner| < |b.owner| ==> AmbiguousOwner(b) && AmbiguousProvider(a)
  {
    hide Decimal, Numbers, AmbiguousOwner, AmbiguousProvider;
    if |a.owner| == |b.owner| { SamePart(a, b); }
    if |a.owner| < |b.owner| {
      var y := LaterSplit(a.owner, Numbers(a.dseq, a.gseq, a.oseq, a.provider),
                          b.owner, Numbers(b.dseq, b.gseq, b.oseq, b.provider));
      OwnerSplits(a, b, y);
      ProviderSplits(a, b, y);
    }
  }

  lemma TwinIsAmbiguous(a: Id, b: Id)
    requires a != b && RecordKey(a) == RecordKey(b)
    ensures AmbiguousOwner(b) || AmbiguousProvider(b)
  {
    hide RecordKey, AmbiguousOwner, AmbiguousProvider;
    LongerOwner(a, b);
    LongerOwner(b, a);
  }

  lemma OwnerTwin(b: Id)
    requires AmbiguousOwner(b)
    ensures HasTwin(b)
  {
    hide Decimal, RecordKey, Numbers;
    if b.dseq < 0x1_0000_0000 && EndsInNumber(b.owner) {
      var o, n: uint64 :| b.owner == o + ":" + Decimal(n);
      NumberMoves(o, n, b);
      assert RecordKey(Id(o, n, b.dseq, b.gseq, Decimal(b.oseq) + ":" + b.provider)) == RecordKey(b);
    } else {
      var u, l: uint64, m: uint32, n: uint32, v :| b.owner + ":" == u + ":" + Numbers(l, m, n, v);
      var t := Numbers(b.dseq, b.gseq, b.oseq, b.provider);
      BlockMoves(u, l, m, n, v, b.owner, t);
      OwnerShrinks(u, l, m, n, v, b.owner);
      assert RecordKey(Id(u, l, m, n, v + t)) == RecordKey(b) by { KeyIs(Id(u, l, m, n, v + t)); KeyIs(b); }
    }
  }

  lemma KeyIs(b: Id)
    ensures RecordKey(b) == b.owner + ":" + Numbers(b.dseq, b.gseq, b.oseq, b.provider)
  {
  }

  // Three numbers, whatever ends them, followed by a text.
  lemma BlockMoves(u: string, l: nat, m: nat, n: nat, v: string, owner: string, t: string)
    requires owner + ":" == u + ":" + Numbers(l, m, n, v)
    ensures owner + ":" + t == u + ":" + Numbers(l, m, n, v + t)
  {
    assert Numbers(l, m, n, v) + t == Numbers(l, m, n, v + t) by { hide Decimal; }
    hide Decimal, Numbers;
    assert owner + ":" + t == (u + ":" + Numbers(l, m, n, v)) + t;
  }

  lemma OwnerShrinks(u: string, l: nat, m: nat, n: nat, v: string, owner: string)
    requires owner + ":" == u + ":" + Numbers(l, m, n, v)
    ensures |u| < |owner|
  {
    hide Decimal;
    assert |Numbers(l, m, n, v)| >= 3;
    assert |owner + ":"| == |u| + 1 + |Numbers(l, m, n, v)|;
  }

  lemma ProviderTwin(b: Id)
    requires AmbiguousProvider(b)
    ensures HasTwin(b)
  {
    hide Decimal, RecordKey, Numbers;
    if StartsWithNumber(b.provider) {
      var n: uint32, p :| b.provider == Decimal(n) + ":" + p;
      var a := Id(b.owner + ":" + Decimal(b.dseq), b.gseq, b.oseq, n, p);
      NumberMoves(b.owner, b.dseq, a);
      assert RecordKey(a) == RecordKey(b);
    } else {
      var u, l: uint64, m: uint32, n: uint32, v :| ":" + b.provider == u + ":" + Numbers(l, m, n, v);
      var a := Id(BeforeProvider(b) + u, l, m, n, v);
      ProviderBlockMoves(b, u, Numbers(l, m, n, v));
      assert RecordKey(a) == RecordKey(b) by { KeyIs(a); }
    }
  }

  // The key up to the colon before the provider.
  function BeforeProvider(b: Id): string {
    b.owner + ":" + (Decimal(b.dseq) + ":" + (Decimal(b.gseq) + ":" + Decimal(b.oseq)))
  }

  lemma ProviderBlockMoves(b: Id, u: string, t: string)
    requires ":" + b.provider == u + ":" + t
    ensures RecordKey(b) == BeforeProvider(b) + u + ":" + t && |BeforeProvider(b)| > |b.owner|
  {
    hide Decimal;
    assert RecordKey(b) == BeforeProvider(b) + (":" + b.provider);
  }

  lemma NumberMoves(o: string, n: uint64, b: Id)
    requires b.owner == o + ":" + Decimal(n) && b.dseq < 0x1_0000_0000
    ensures RecordKey(Id(o, n, b.dseq, b.gseq, Decimal(b.oseq) + ":" + b.provider)) == RecordKey(b)
  {
    hide Decimal;
  }

  // An id shares its key with another storable one exactly when its owner ends in
  // a number after a colon and its own number has 32 bits, its provider starts
  // with a number of 32 bits before a colon, or either holds three numbers in a
  // row that fit the fields.
  lemma TwinExactly(b: Id)
    ensures HasTwin(b) <==> AmbiguousOwner(b) || AmbiguousProvider(b)
  {
    hide AmbiguousOwner, AmbiguousProvider, RecordKey;
    if HasTwin(b) {
      var a: Id :| a != b && RecordKey(a) == RecordKey(b);
      TwinIsAmbiguous(a, b);
    }
    if AmbiguousOwner(b) { OwnerTwin(b); }
    if AmbiguousProvider(b) { ProviderTwin(b); }
  }

  // A concrete pair.
  lemma ColonOwnersCollide()
    ensures RecordKey(Id("a:1", 2, 3, 4, "5:p")) == RecordKey(Id("a", 1, 2, 3, "4:5:p"))
  {
    assert Decimal(1) == "1" && Decimal(2) == "2" && Decimal(3) == "3" && Decimal(4) == "4";
    assert RecordKey(Id("a:1", 2, 3, 4, "5:p")) == "a:1:2:3:4:5:p";
    assert RecordKey(Id("a", 1, 2, 3, "4:5:p")) == "a:1:2:3:4:5:p";
  }

  lemma NotANumber(s: string)
    requires s != "" && !('0' <= s[|s| - 1] <= '9')
    ensures !EndsInNumber(s)
  {
    forall o, n ensures s != o + ":" + Decimal(n) {
      var t := o + ":" + Decimal(n);
      assert t[|t| - 1] == Decimal(n)[|Decimal(n)| - 1];
    }
  }

  // Three numbers inside an owner are enough: it need not end in a number, nor
  // the provider start with one, as for "a:1:2:3:x" and any colon-free provider.
  lemma InnerNumbersCollide(u: string, l: uint64, m: uint32, n: uint32, v: string, b: Id)
    requires b.owner == u + ":" + Numbers(l, m, n, v) && ColonFree(b.provider)
    requires v != "" && !('0' <= v[|v| - 1] <= '9')
    ensures HasTwin(b) && !EndsInNumber(b.owner) && !StartsWithNumber(b.provider)
  {
    hide Decimal, RecordKey, ColonFree, EndsInNumber;
    NumbersEnd(u, l, m, n, v);
    NotANumber(b.owner);
    ColonFreeProvider(b);
    assert b.owner + ":" == u + ":" + Numbers(l, m, n, v + ":");
    assert HoldsNumbers(b.owner + ":");
    OwnerTwin(b);
  }

  // A number too wide to move: the owner ends in one, and there is no twin.
  lemma WideNumberStays(o: string, n: uint64, b: Id)
    requires ColonFree(o) && b.owner == o + ":" + Decimal(n) && b.dseq >= 0x1_0000_0000 && ColonFree(b.provider)
    ensures EndsInNumber(b.owner) && !HasTwin(b)
  {
    ColonFreeProvider(b);
    TwinExactly(b);
    TooFewNumbers(o, n, b.owner);
    hide AmbiguousProvider, HasTwin, RecordKey, HoldsNumbers, Decimal;
  }

  // One colon is not enough for three numbers.
  lemma TooFewNumbers(o: string, n: nat, s: string)
    requires ColonFree(o) && s == o + ":" + Decimal(n)
    ensures !HoldsNumbers(s + ":")
  {
    DecimalColonFree(n);
    hide Decimal;
    forall u, i: uint64, j: uint32, k: uint32, v ensures s + ":" != u + ":" + Numbers(i, j, k, v) {
      if s + ":" == u + ":" + Numbers(i, j, k, v) {
        var at := |u| + 1 + |Decimal(i)|;
        var later := at + 1 + |Decimal(j)|;
        assert (u + ":" + Numbers(i, j, k, v))[|u|] == ':';
        assert (u + ":" + Numbers(i, j, k, v))[at] == ':';
        assert (u + ":" + Numbers(i, j, k, v))[later] == ':';
        TwoColons(o, Decimal(n), |u|, at, later);
      }
    }
  }

  lemma TwoColons(o: string, d: string, i: nat, j: nat, k: nat)
    requires ColonFree(o) && ColonFree(d) && i < j < k < |o + ":" + d + ":"|
    ensures (o + ":" + d + ":")[i] != ':' || (o + ":" + d + ":")[j] != ':' || (o + ":" + d + ":")[k] != ':'
  {
    var s := o + ":" + d + ":";
    assert forall x :: 0 <= x < |o| ==> s[x] == o[x];
    assert forall x :: |o| < x < |s| - 1 ==> s[x] == d[x - |o| - 1];
  }

  lemma NumbersEnd(u: string, l: nat, m: nat, n: nat, v: string)
    requires v != ""
    ensures var s := u + ":" + Numbers(l, m, n, v); s[|s| - 1] == v[|v| - 1]
  {
    hide Decimal;
  }

  // ---------------------------------------------------------- merging reports

  function OrNow(t: int, now: int): int {
    if t == 0 then now else t
  }

  function MergeDeployment(existing: Option<DeploymentRecord>, report: DeploymentRecord, now: int): DeploymentRecord {
    var m := report.(updatedAt := OrNow(report.updatedAt, now));
    var n := if existing.Some? then
               m.(local := existing.value.local, createdAt := existing.value.createdAt, closedAt :=
                 existing.value.closedAt)
             else m;
    n.(createdAt := OrNow(n.createdAt, now), closedAt := if n.state == "closed" then OrNow(n.closedAt, now)
      else n.closedAt)
  }

  function MergeLease(existing: Option<LeaseRecord>, report: LeaseRecord, now: int): LeaseRecord {
    var n := if existing.Some? then
               report.(providerUri := existing.value.providerUri, endpoints := existing.value.endpoints,
                       createdAt := existing.value.createdAt, closedAt := existing.value.closedAt)
             else report;
    n.(createdAt := OrNow(n.createdAt, now), closedAt := if n.state == "closed" then OrNow(n.closedAt, now)
      else n.closedAt)
  }

  function MergeBid(existing: Option<BidRecord>, report: BidRecord, now: int): BidRecord {
    var m := if existing.Some? && report.attributes.None? then
               report.(attributes := existing.value.attributes, audited := existing.value.audited)
             else report;
    var n := if existing.Some? then m.(createdAt := existing.value.createdAt) else m;
    n.(createdAt := OrNow(n.createdAt, now))
  }

  // nextRecordVersion: the store's own counter, never behind either side.
  function NextVersion(existing: Option<nat>, incoming: nat): nat {
    if existing.None? then (if incoming == 0 then 1 else incoming)
    else if incoming > existing.value then incoming
    else existing.value + 1
  }
}
