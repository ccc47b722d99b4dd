// Entries of the action log, their filter, and the collapse of a
// transaction's revisions into one entry (internal/actionlog/log.go).
module ActionLogEntries {

  // Timestamp 0 is the zero time.
  datatype Entry = Entry(
    timestamp: int, kind: string, action: string, txHash: string, height: int, gasUsed: int,
    resultCode: nat, dseq: nat, gseq: nat, oseq: nat, provider: string, account: string,
    params: string, durationMs: int, workflowId: string, step: int, stepName: string,
    error: string, status: string)

  datatype Filter = Filter(kind: string, since: int, limit: int, dseq: nat, account: string, workflowId: string)

  const TypeTx := "tx"

  predicate Matches(e: Entry, f: Filter) {
    && (f.kind != "" ==> e.kind == f.kind)
    && (f.since != 0 ==> f.since <= e.timestamp)
    && (f.dseq != 0 ==> e.dseq == f.dseq)
    && (f.account != "" ==> e.account == f.account)
    && (f.workflowId != "" ==> e.workflowId == f.workflowId)
  }

  function Selected(s: seq<Entry>, f: Filter): seq<Entry> {
    if s == [] then []
    else (if Matches(s[0], f) then [s[0]] else []) + Selected(s[1..], f)
  }

  // Two records of one transaction.
  predicate SameTx(a: Entry, b: Entry) {
    a.kind == TypeTx && b.kind == TypeTx && a.txHash == b.txHash && a.txHash != ""
  }

  // e joins the list: it takes over the first entry of its transaction, keeping
  // that entry's timestamp, or goes last.
  function Revise(out: seq<Entry>, e: Entry): seq<Entry> {
    if out == [] then [e]
    else if SameTx(out[0], e) then [e.(timestamp := out[0].timestamp)] + out[1..]
    else [out[0]] + Revise(out[1..], e)
  }

  function ReviseAll(out: seq<Entry>, s: seq<Entry>): seq<Entry>
    decreases |s|
  {
    if s == [] then out else ReviseAll(Revise(out, s[0]), s[1..])
  }

  function Collapse(s: seq<Entry>): seq<Entry> { ReviseAll([], s) }

  // The method's index map: where each transaction's entry is.
  ghost predicate Indexed(out: seq<Entry>, indices: map<string, nat>) {
    && (forall h :: h in indices ==>
         h != "" && indices[h] < |out| && out[indices[h]].kind == TypeTx && out[indices[h]].txHash == h)
    && forall k :: 0 <= k < |out| && out[k].kind == TypeTx && out[k].txHash != "" ==>
         out[k].txHash in indices && indices[out[k].txHash] == k
  }

  lemma {:induction false} ReviseAt(out: seq<Entry>, e: Entry, k: nat)
    requires k <= |out| && forall i :: 0 <= i < k ==> !SameTx(out[i], e)
    requires k < |out| ==> SameTx(out[k], e)
    ensures Revise(out, e) == if k < |out| then out[k := e.(timestamp := out[k].timestamp)] else out + [e]
    decreases k
  {
    if k > 0 {
      ReviseAt(out[1..], e, k - 1);
      assert out == [out[0]] + out[1..];
    }
  }

  method CollapseRevisions(entries: seq<Entry>) returns (collapsed: seq<Entry>)
    ensures collapsed == Collapse(entries)
  {
    collapsed := [];
    var indices: map<string, nat> := map[];
    for n := 0 to |entries|
      invariant Indexed(collapsed, indices)
      invariant ReviseAll(collapsed, entries[n..]) == Collapse(entries)
    {
      var entry := entries[n];
      assert entries[n..][1..] == entries[n + 1..];
      if entry.kind == TypeTx && entry.txHash != "" {
        if entry.txHash in indices {
          var index := indices[entry.txHash];
          ReviseAt(collapsed, entry, index);
          collapsed := collapsed[index := entry.(timestamp := collapsed[index].timestamp)];
          continue;
        }
        indices := indices[entry.txHash := |collapsed|];
      }
      ReviseAt(collapsed, entry, |collapsed|);
      collapsed := collapsed + [entry];
    }
  }

  // ---- Collapse is an incremental fold ----

  lemma {:induction false} ReviseAllConcat(out: seq<Entry>, a: seq<Entry>, b: seq<Entry>)
    ensures ReviseAll(out, a + b) == ReviseAll(ReviseAll(out, a), b)
    decreases |a|
  {
    if a == [] {
      assert a + b == b;
    } else {
      assert (a + b)[1..] == a[1..] + b;
      ReviseAllConcat(Revise(out, a[0]), a[1..], b);
    }
  }

  // No transaction twice.
  ghost predicate Distinct(s: seq<Entry>) {
    forall i, j :: 0 <= i < j < |s| ==> !SameTx(s[i], s[j])
  }

  lemma {:induction false} DistinctUnchanged(out: seq<Entry>, s: seq<Entry>)
    requires Distinct(out + s)
    ensures ReviseAll(out, s) == out + s
    decreases |s|
  {
    if s == [] {
      assert out + s == out;
    } else {
      forall i | 0 <= i < |out| ensures !SameTx(out[i], s[0]) {
        assert out[i] == (out + s)[i] && s[0] == (out + s)[|out|];
      }
      ReviseAt(out, s[0], |out|);
      assert out + [s[0]] + s[1..] == out + s;
      DistinctUnchanged(out + [s[0]], s[1..]);
    }
  }

  lemma {:induction false} CollapseExtends(s: seq<Entry>, e: Entry)
    ensures Collapse(s + [e]) == Revise(Collapse(s), e)
  {
    ReviseAllConcat([], s, [e]);
    assert ReviseAll(Collapse(s), [e]) == ReviseAll(Revise(Collapse(s), e), []);
  }

  // ---- Where each logical entry comes from ----

  // Positions of the records that open an entry: no earlier record of the same
  // transaction.
  ghost predicate Opens(s: seq<Entry>, i: nat) {
    i < |s| && forall j :: 0 <= j < i ==> !SameTx(s[j], s[i])
  }

  ghost function Firsts(s: seq<Entry>): (r: seq<nat>)
    ensures forall n :: 0 <= n < |r| ==> r[n] < |s|
  {
    if s == [] then []
    else Firsts(s[..|s| - 1]) + if Opens(s, |s| - 1) then [|s| - 1] else []
  }

  // In order, exactly the opening records.
  lemma {:induction false} FirstsOpen(s: seq<Entry>)
    ensures forall n :: 0 <= n < |Firsts(s)| ==> Opens(s, Firsts(s)[n])
    ensures forall m, n :: 0 <= m < n < |Firsts(s)| ==> Firsts(s)[m] < Firsts(s)[n]
    ensures forall i :: Opens(s, i) ==> i in Firsts(s)
  {
    if s != [] {
      var front := s[..|s| - 1];
      FirstsOpen(front);
      assert forall i: nat :: i < |front| ==> (Opens(front, i) <==> Opens(s, i));
    }
  }

  // The last record of the transaction of record i; i itself when it is none's.
  ghost function LastAt(s: seq<Entry>, i: nat): (k: nat)
    requires i < |s|
    ensures i <= k < |s| && (k == i || SameTx(s[k], s[i]))
    ensures forall j :: k < j < |s| ==> !SameTx(s[j], s[i])
  {
    var last := |s| - 1;
    if i == last || SameTx(s[last], s[i]) then last else LastAt(s[..last], i)
  }

  // Entry n of the collapsed log: the n-th opening record's position and
  // timestamp, and every other field of that transaction's last record.
  ghost predicate Represents(s: seq<Entry>, out: seq<Entry>) {
    RepresentsAt(s, Firsts(s), out)
  }

  ghost function Represented(s: seq<Entry>, first: nat): Entry
    requires first < |s|
  {
    s[LastAt(s, first)].(timestamp := s[first].timestamp)
  }

  ghost predicate RepresentsAt(s: seq<Entry>, firsts: seq<nat>, out: seq<Entry>) {
    && |out| == |firsts|
    && (forall n :: 0 <= n < |firsts| ==> firsts[n] < |s|)
    && forall n :: 0 <= n < |out| ==> out[n] == Represented(s, firsts[n])
  }

  lemma SameTxRepresented(s: seq<Entry>, first: nat, d: Entry)
    requires first < |s|
    ensures SameTx(Represented(s, first), d) <==> SameTx(s[first], d)
  {
  }

  lemma {:induction false} CollapseRepresents(s: seq<Entry>)
    ensures Represents(s, Collapse(s))
  {
    if s == [] { return; }
    var last := |s| - 1;
    var front, e := s[..last], s[last];
    assert s == front + [e];
    CollapseRepresents(front);
    CollapseExtends(front, e);
    RepresentsExtends(front, e, Collapse(front));
  }

  lemma RepresentsExtends(front: seq<Entry>, e: Entry, out: seq<Entry>)
    requires Represents(front, out)
    ensures Represents(front + [e], Revise(out, e))
  {
    FirstsApart(front);
    hide Firsts, SameTx, Represented, Revise;
    if n :| 0 <= n < |Firsts(front)| && SameTx(front[Firsts(front)[n]], e) {
      FirstsRevised(front, e, n);
      RevisionRepresents(front, e, Firsts(front), out, n);
    } else {
      FirstsOpened(front, e);
      OpeningRepresents(front, e, Firsts(front), out);
    }
  }

  lemma LastAtExtends(front: seq<Entry>, e: Entry, i: nat)
    requires i < |front|
    ensures LastAt(front + [e], i) == if SameTx(e, front[i]) then |front| else LastAt(front, i)
  {
    assert (front + [e])[..|front|] == front;
  }

  lemma FirstsApart(s: seq<Entry>)
    ensures forall m, n :: 0 <= m < n < |Firsts(s)| ==> !SameTx(s[Firsts(s)[m]], s[Firsts(s)[n]])
    ensures forall n :: 0 <= n < |Firsts(s)| ==> Firsts(s)[n] < |s|
  {
    FirstsOpen(s);
    forall m, n | 0 <= m < n < |Firsts(s)| ensures !SameTx(s[Firsts(s)[m]], s[Firsts(s)[n]]) {
      assert Opens(s, Firsts(s)[n]);
    }
  }

  lemma FirstsRevised(front: seq<Entry>, e: Entry, n: nat)
    requires n < |Firsts(front)| && SameTx(front[Firsts(front)[n]], e)
    ensures Firsts(front + [e]) == Firsts(front)
  {
    var s := front + [e];
    assert s[..|s| - 1] == front;
    assert !Opens(s, |s| - 1) by { assert SameTx(s[Firsts(front)[n]], s[|s| - 1]); }
  }

  lemma FirstsOpened(front: seq<Entry>, e: Entry)
    requires forall n :: 0 <= n < |Firsts(front)| ==> !SameTx(front[Firsts(front)[n]], e)
    ensures Firsts(front + [e]) == Firsts(front) + [|front|]
  {
    var s := front + [e];
    assert s[..|s| - 1] == front;
    assert Opens(s, |front|) by {
      forall j | 0 <= j < |front| ensures !SameTx(s[j], e) {
        if SameTx(s[j], e) { OpenerExists(front, j); }
      }
    }
  }

  lemma OlderRepresented(front: seq<Entry>, e: Entry, i: nat)
    requires i < |front| && !SameTx(front[i], e)
    ensures !SameTx(Represented(front, i), e) && Represented(front + [e], i) == Represented(front, i)
  {
    SameTxRepresented(front, i, e);
    LastAtExtends(front, e, i);
  }

  // e revises the transaction opened n-th.
  lemma RevisionRepresents(front: seq<Entry>, e: Entry, firsts: seq<nat>, out: seq<Entry>, n: nat)
    requires RepresentsAt(front, firsts, out) && n < |out| && SameTx(front[firsts[n]], e)
    requires forall i, j :: 0 <= i < j < |firsts| ==> !SameTx(front[firsts[i]], front[firsts[j]])
    ensures RepresentsAt(front + [e], firsts, Revise(out, e))
  {
    forall m | 0 <= m < |out|
      ensures SameTx(out[m], e) <==> m == n
      ensures Represented(front + [e], firsts[m]) == if m == n then e.(timestamp := out[n].timestamp) else out[m]
    {
      SameTxRepresented(front, firsts[m], e);
      LastAtExtends(front, e, firsts[m]);
    }
    ReviseAt(out, e, n);
    hide SameTx, Revise, Represented;
  }

  // e opens an entry of its own.
  lemma OpeningRepresents(front: seq<Entry>, e: Entry, firsts: seq<nat>, out: seq<Entry>)
    requires RepresentsAt(front, firsts, out)
    requires forall n :: 0 <= n < |firsts| ==> !SameTx(front[firsts[n]], e)
    ensures RepresentsAt(front + [e], firsts + [|front|], Revise(out, e))
  {
    hide SameTx, Revise, Represented;
    var s, all, revised := front + [e], firsts + [|front|], out + [e];
    OwnRepresented(front, e);
    forall m | 0 <= m < |out| ensures !SameTx(out[m], e) && all[m] < |s| && Represented(s, all[m]) == revised[m] {
      OlderRepresented(front, e, firsts[m]);
    }
    ReviseAt(out, e, |out|);
  }

  lemma OwnRepresented(front: seq<Entry>, e: Entry)
    ensures Represented(front + [e], |front|) == e
  {
  }

  // Every record's transaction is opened by one at or before it.
  lemma {:induction false} OpenerExists(s: seq<Entry>, i: nat)
    requires i < |s| && SameTx(s[i], s[i])
    ensures exists n :: 0 <= n < |Firsts(s)| && SameTx(s[Firsts(s)[n]], s[i])
    decreases i
  {
    if Opens(s, i) {
      FirstsOpen(s);
      assert i in Firsts(s);
    } else {
      var j :| 0 <= j < i && SameTx(s[j], s[i]);
      OpenerExists(s, j);
    }
  }

  lemma CollapsedDistinct(s: seq<Entry>)
    ensures Distinct(Collapse(s))
  {
    var out, firsts := Collapse(s), Firsts(s);
    CollapseRepresents(s);
    FirstsOpen(s);
    forall m, n | 0 <= m < n < |out| ensures !SameTx(out[m], out[n]) {
      SameTxRepresented(s, firsts[m], out[n]);
      SameTxRepresented(s, firsts[n], s[firsts[m]]);
      assert Opens(s, firsts[n]);
    }
  }

  lemma CollapseIdempotent(s: seq<Entry>)
    ensures Collapse(Collapse(s)) == Collapse(s)
  {
    CollapsedDistinct(s);
    assert [] + Collapse(s) == Collapse(s);
    DistinctUnchanged([], Collapse(s));
  }

  lemma CollapseIncremental(a: seq<Entry>, b: seq<Entry>)
    ensures Collapse(Collapse(a) + b) == Collapse(a + b)
  {
    ReviseAllConcat([], a, b);
    ReviseAllConcat([], Collapse(a), b);
    CollapseIdempotent(a);
  }

  ghost predicate Chronological(s: seq<Entry>) {
    forall i, j :: 0 <= i < j < |s| ==> s[i].timestamp <= s[j].timestamp
  }

  lemma CollapseKeepsOrder(s: seq<Entry>)
    requires Chronological(s)
    ensures Chronological(Collapse(s))
  {
    CollapseRepresents(s);
    var out, firsts := Collapse(s), Firsts(s);
    FirstsOpen(s);
    forall m, n | 0 <= m < n < |out| ensures out[m].timestamp <= out[n].timestamp {
      assert Opens(s, firsts[m]) && Opens(s, firsts[n]);
    }
  }

  // ---- Filtering before or after ----

  // Revisions of a transaction have the same verdict under the filter's fields.
  ghost predicate AgreeOnFiltered(s: seq<Entry>, f: Filter) {
    forall i, j :: 0 <= i < |s| && 0 <= j < |s| && SameTx(s[i], s[j]) ==>
      && (f.dseq != 0 ==> s[i].dseq == s[j].dseq)
      && (f.account != "" ==> s[i].account == s[j].account)
      && (f.workflowId != "" ==> s[i].workflowId == s[j].workflowId)
  }

  lemma {:induction false} SelectedConcat(a: seq<Entry>, b: seq<Entry>, f: Filter)
    ensures Selected(a + b, f) == Selected(a, f) + Selected(b, f)
    decreases |a|
  {
    if a == [] {
      assert a + b == b;
    } else {
      assert (a + b)[1..] == a[1..] + b;
      SelectedConcat(a[1..], b, f);
    }
  }

  // An entry and its revision stand alike under the filter, and so does the
  // revision at the entry's time.
  predicate SameVerdict(x: Entry, e: Entry, f: Filter) {
    (Matches(x, f) <==> Matches(e, f)) && (Matches(x, f) <==> Matches(e.(timestamp := x.timestamp), f))
  }

  lemma {:induction false} ReviseThenSelect(out: seq<Entry>, e: Entry, f: Filter)
    requires forall i :: 0 <= i < |out| && SameTx(out[i], e) ==> SameVerdict(out[i], e, f)
    ensures Selected(Revise(out, e), f) == if Matches(e, f) then Revise(Selected(out, f), e) else Selected(out, f)
  {
    if out == [] {
      assert Selected([e], f) == if Matches(e, f) then [e] else [];
    } else if SameTx(out[0], e) {
      var revised := e.(timestamp := out[0].timestamp);
      assert ([revised] + out[1..])[1..] == out[1..];
      assert Matches(revised, f) <==> Matches(out[0], f);
      if Matches(e, f) { ReviseAt(Selected(out, f), e, 0); }
    } else {
      ReviseThenSelect(out[1..], e, f);
      PastFirst(out[0], out[1..], e, f);
      assert out == [out[0]] + out[1..];
    }
  }

  lemma PastFirst(x: Entry, rest: seq<Entry>, e: Entry, f: Filter)
    requires !SameTx(x, e)
    requires Selected(Revise(rest, e), f) == if Matches(e, f) then Revise(Selected(rest, f), e) else Selected(rest, f)
    ensures Selected(Revise([x] + rest, e), f)
            == if Matches(e, f) then Revise(Selected([x] + rest, f), e) else Selected([x] + rest, f)
  {
    hide Matches, SameTx, Selected, Revise;
    ReviseStep(x, rest, e);
    ReviseStep(x, Selected(rest, f), e);
    SelectedStep(x, rest, f);
    SelectedStep(x, Revise(rest, e), f);
  }

  lemma ReviseStep(x: Entry, rest: seq<Entry>, e: Entry)
    requires !SameTx(x, e)
    ensures Revise([x] + rest, e) == [x] + Revise(rest, e)
  {
    assert ([x] + rest)[1..] == rest;
  }

  lemma SelectedStep(x: Entry, rest: seq<Entry>, f: Filter)
    ensures Selected([x] + rest, f) == if Matches(x, f) then [x] + Selected(rest, f) else Selected(rest, f)
  {
    assert ([x] + rest)[1..] == rest;
  }

  // Two records of one transaction, of which the filter takes one.
  ghost predicate Straddles(s: seq<Entry>, f: Filter) {
    exists i, j :: 0 <= i < |s| && 0 <= j < |s| && SameTx(s[i], s[j]) && Matches(s[i], f) && !Matches(s[j], f)
  }

  // Records that agree on the filtered fields differ in verdict by time alone.
  lemma VerdictByTime(s: seq<Entry>, f: Filter, i: nat, j: nat)
    requires AgreeOnFiltered(s, f) && i < |s| && j < |s| && SameTx(s[i], s[j])
    ensures Matches(s[j].(timestamp := s[i].timestamp), f) <==> Matches(s[i], f)
  {
  }

  lemma {:induction false} CommutesUnlessStraddling(s: seq<Entry>, f: Filter)
    requires AgreeOnFiltered(s, f) && !Straddles(s, f)
    ensures Collapse(Selected(s, f)) == Selected(Collapse(s), f)
  {
    if s == [] { return; }
    var last := |s| - 1;
    var front, e := s[..last], s[last];
    assert s == front + [e];
    StraddlesLater(s, f);
    CommutesUnlessStraddling(front, f);
    SelectedConcat(front, [e], f);
    CollapseExtends(front, e);
    assert Selected([e], f) == if Matches(e, f) then [e] else [];
    var out := Collapse(front);
    forall i | 0 <= i < |out| && SameTx(out[i], e) ensures SameVerdict(out[i], e, f) { RevisedAlike(s, f, i); }
    hide Matches, SameTx, Revise, Collapse, SameVerdict, Straddles, AgreeOnFiltered;
    ReviseThenSelect(out, e, f);
    if Matches(e, f) {
      CollapseExtends(Selected(front, f), e);
    } else {
      assert Selected(front, f) + [] == Selected(front, f);
    }
  }

  lemma StraddlesLater(s: seq<Entry>, f: Filter)
    requires s != [] && AgreeOnFiltered(s, f) && !Straddles(s, f)
    ensures AgreeOnFiltered(s[..|s| - 1], f) && !Straddles(s[..|s| - 1], f)
  {
    hide Matches, SameTx;
  }

  // An entry collapsed so far stands like its opening record, and that like the
  // record that revises it next.
  lemma RevisedAlike(s: seq<Entry>, f: Filter, i: nat)
    requires s != [] && AgreeOnFiltered(s, f) && !Straddles(s, f)
    requires var out := Collapse(s[..|s| - 1]); i < |out| && SameTx(out[i], s[|s| - 1])
    ensures SameVerdict(Collapse(s[..|s| - 1])[i], s[|s| - 1], f)
  {
    var last := |s| - 1;
    var front := s[..last];
    CollapseRepresents(front);
    var first := Firsts(front)[i];
    var latest := LastAt(front, first);
    SameTxRepresented(front, first, s[last]);
    assert s[first] == front[first] && s[latest] == front[latest];
    VerdictByTime(s, f, first, latest);
    VerdictByTime(s, f, first, last);
    assert SameTx(s[last], s[first]) && SameTx(s[first], s[last]);
  }

  lemma {:induction false} SelectedMembers(s: seq<Entry>, f: Filter)
    ensures forall x :: x in Selected(s, f) <==> x in s && Matches(x, f)
  {
    hide Matches;
    if s != [] {
      SelectedMembers(s[1..], f);
      assert s == [s[0]] + s[1..];
    }
  }

  // Every transaction with a record has an entry in the collapsed log.
  lemma CollapseKeepsTx(s: seq<Entry>, i: nat)
    requires i < |s| && SameTx(s[i], s[i])
    ensures exists x :: x in Collapse(s) && SameTx(x, s[i])
  {
    CollapseRepresents(s);
    OpenerExists(s, i);
    var n :| 0 <= n < |Firsts(s)| && SameTx(s[Firsts(s)[n]], s[i]);
    SameTxRepresented(s, Firsts(s)[n], s[i]);
    assert Collapse(s)[n] in Collapse(s);
  }

  // An entry of the collapsed log is no later than any record of its
  // transaction.
  lemma CollapsedIsFirst(s: seq<Entry>, x: Entry, i: nat)
    requires Chronological(s) && x in Collapse(s) && i < |s| && SameTx(x, s[i])
    ensures x.timestamp <= s[i].timestamp
  {
    CollapseRepresents(s);
    FirstsOpen(s);
    var n :| 0 <= n < |Collapse(s)| && Collapse(s)[n] == x;
    var first := Firsts(s)[n];
    SameTxRepresented(s, first, s[i]);
    assert Opens(s, first);
    if i < first { assert SameTx(s[i], s[first]); }
  }

  lemma StraddlingDiffers(s: seq<Entry>, f: Filter)
    requires Chronological(s) && AgreeOnFiltered(s, f) && Straddles(s, f)
    ensures Collapse(Selected(s, f)) != Selected(Collapse(s), f)
  {
    var i, j :| 0 <= i < |s| && 0 <= j < |s| && SameTx(s[i], s[j]) && Matches(s[i], f) && !Matches(s[j], f);
    VerdictByTime(s, f, j, i);
    var kept := Selected(s, f);
    SelectedMembers(s, f);
    assert s[i] in kept;
    var k :| 0 <= k < |kept| && kept[k] == s[i];
    CollapseKeepsTx(kept, k);
    var x :| x in Collapse(kept) && SameTx(x, s[i]);
    SelectedMembers(Collapse(s), f);
    if x in Selected(Collapse(s), f) { CollapsedIsFirst(s, x, j); }
  }

  // On a log in order whose revisions agree on the filtered fields, selecting
  // before the collapse (as Read does) and after it are the same exactly
  // when the filter splits no transaction, that is, when no Since bound falls
  // between two records of one.
  lemma CollapseCommutesExactly(s: seq<Entry>, f: Filter)
    requires Chronological(s) && AgreeOnFiltered(s, f)
    ensures Collapse(Selected(s, f)) == Selected(Collapse(s), f) <==> !Straddles(s, f)
  {
    hide Collapse, Selected, Straddles, Chronological, AgreeOnFiltered;
    if Straddles(s, f) { StraddlingDiffers(s, f); } else { CommutesUnlessStraddling(s, f); }
  }

  // Without a Since bound nothing is split, in any order.
  lemma CollapseCommutesWithFilter(s: seq<Entry>, f: Filter)
    requires f.since == 0 && AgreeOnFiltered(s, f)
    ensures Collapse(Selected(s, f)) == Selected(Collapse(s), f)
  {
    CommutesUnlessStraddling(s, f);
  }

  // Nor is agreement idle: where only the later of two revisions has the
  // filtered value, the two orders differ in the entry's time.
  lemma DisagreementDoesNotCommute(submitted: Entry, confirmed: Entry, f: Filter)
    requires SameTx(submitted, confirmed) && submitted.timestamp != confirmed.timestamp && f.since == 0
    requires !Matches(submitted, f) && Matches(confirmed, f)
    ensures var s := [submitted, confirmed];
            Collapse(Selected(s, f)) != Selected(Collapse(s), f)
  {
    var s := [submitted, confirmed];
    var merged := confirmed.(timestamp := submitted.timestamp);
    assert s[1..] == [confirmed] && [confirmed][1..] == [];
    assert Selected([confirmed], f) == [confirmed];
    assert Selected(s, f) == [confirmed];
    assert Collapse([confirmed]) == ReviseAll([confirmed], []);
    assert Collapse(s) == ReviseAll([submitted], [confirmed]) == ReviseAll([merged], []);
    assert Selected([merged], f) == [merged] + Selected([], f);
  }
}
