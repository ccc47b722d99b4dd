// The counted expansion computes the reference expansion, and succeeds exactly
// when that fits the depth and node limits.
module YamlExpansion {
  import opened Basics
  import opened SdlDocument
  import opened YamlNodes

  // ------------------------------------------------ the size of an expansion

  ghost function Visits(g: Graph, id: nat, fuel: nat): nat
    requires WellFormedGraph(g) && id < |g|
    decreases fuel, 0, 0
  {
    if fuel == 0 then 1
    else
      assert WellFormedNode(g, g[id]);
      match g[id]
      case Scalar(_, _, _) => 1
      case Alias(target) => 1 + Visits(g, target, fuel - 1)
      case Sequence(content) => 1 + VisitsAll(g, content, fuel - 1)
      case Mapping(content) => 1 + MergeVisits(g, content, fuel - 1) + PairVisits(g, content, fuel - 1)
  }

  ghost function VisitsAll(g: Graph, content: seq<nat>, fuel: nat): nat
    requires WellFormedGraph(g) && InGraph(g, content)
    decreases fuel, 1, |content|
  {
    if content == [] then 0 else Visits(g, content[0], fuel) + VisitsAll(g, content[1..], fuel)
  }

  ghost function MergeVisits(g: Graph, content: seq<nat>, fuel: nat): nat
    requires WellFormedGraph(g) && InGraph(g, content) && |content| % 2 == 0
    decreases fuel, 1, |content|
  {
    if content == [] then 0
    else (if IsMerge(g[content[0]]) then Visits(g, content[1], fuel) else 0) + MergeVisits(g, content[2..], fuel)
  }

  ghost function KeyVisits(g: Graph, key: nat, fuel: nat): nat
    requires WellFormedGraph(g) && key < |g|
    decreases fuel, 1, 0
  {
    if IsKey(g[key]) && g[key].tag == "!!int" then Visits(g, key, fuel) else 0
  }

  ghost function PairVisits(g: Graph, content: seq<nat>, fuel: nat): nat
    requires WellFormedGraph(g) && InGraph(g, content) && |content| % 2 == 0
    decreases fuel, 2, |content|
  {
    if content == [] then 0
    else KeyVisits(g, content[0], fuel) + (if IsMerge(g[content[0]]) then 0 else Visits(g, content[1], fuel))
         + PairVisits(g, content[2..], fuel)
  }

  function FuelAt(depth: nat): nat {
    if depth > MAX_DEPTH then 0 else MAX_DEPTH + 1 - depth
  }

  // ------------------------------------------------------- merging defaults

  lemma {:induction false} OverlayConcat(a: seq<Fields>, b: seq<Fields>)
    ensures Overlay(a + b) == Overlay(b) + Overlay(a)
  {
    if a == [] {
      assert a + b == b;
    } else {
      OverlayConcat(a[1..], b);
      assert (a + b)[1..] == a[1..] + b;
    }
  }

  lemma {:induction false} DefaultsOverlay(acc: Fields, vs: seq<Value>)
    ensures AddDefaults(acc, vs).Ok? <==> AllObjs(vs)
    ensures AllObjs(vs) ==> AddDefaults(acc, vs) == Ok(Overlay(ObjFields(vs)) + acc)
    decreases |vs|
  {
    if vs == [] {
      assert ObjFields(vs) == [] && map[] + acc == acc;
    } else if vs[0].Obj? {
      DefaultsOverlay(vs[0].fields + acc, vs[1..]);
      assert AllObjs(vs) <==> AllObjs(vs[1..]) by {
        assert forall i :: 0 < i < |vs| ==> vs[i] == vs[1..][i - 1];
      }
      if AllObjs(vs) {
        assert ObjFields(vs)[1..] == ObjFields(vs[1..]);
        var o := Overlay(ObjFields(vs[1..]));
        assert o + (vs[0].fields + acc) == (o + vs[0].fields) + acc;
      }
    }
  }

  // ------------------------------------------------------------- exactness

  ghost predicate Agrees<T>(r: Counted<T>, count: nat, reference: Result<T>, cost: nat) {
    && (r.result.Ok? <==> reference.Ok? && count + cost <= MAX_NODES)
    && (r.result.Ok? ==> r == Counted(reference, count + cost))
  }

  lemma {:induction false} NodeExact(g: Graph, id: nat, depth: nat, count: nat)
    requires WellFormedGraph(g) && id < |g| && count <= MAX_NODES
    ensures Agrees(NodeValue(g, id, depth, count), count, Expand(g, id, FuelAt(depth)), Visits(g, id, FuelAt(depth)))
    decreases FuelAt(depth), 0, 0
  {
    var f, c := FuelAt(depth), count + 1;
    if c <= MAX_NODES && depth <= MAX_DEPTH {
      assert FuelAt(depth + 1) == f - 1;
      assert WellFormedNode(g, g[id]);
      match g[id]
      case Scalar(_, _, _) =>
      case Alias(target) => NodeExact(g, target, depth + 1, c);
      case Sequence(content) => ListExact(g, content, depth + 1, c);
      case Mapping(content) =>
        MergesExact(g, content, depth + 1, c, map[]);
        var m := Merges(g, content, depth + 1, c, map[]);
        if m.result.Ok? {
          assert m.result.value == Overlay(Sources(g, content, f - 1).value) + map[]
              == Overlay(Sources(g, content, f - 1).value);
          PairsExact(g, content, depth + 1, m.count, {}, m.result.value);
        }
    }
  }

  lemma {:induction false} ListExact(g: Graph, content: seq<nat>, depth: nat, count: nat)
    requires WellFormedGraph(g) && InGraph(g, content) && count <= MAX_NODES
    ensures Agrees(NodeValues(g, content, depth, count), count,
                   ExpandAll(g, content, FuelAt(depth)), VisitsAll(g, content, FuelAt(depth)))
    decreases FuelAt(depth), 1, |content|
  {
    if content != [] {
      NodeExact(g, content[0], depth, count);
      var v := NodeValue(g, content[0], depth, count);
      if v.result.Ok? { ListExact(g, content[1..], depth, v.count); }
    }
  }

  ghost function Defaulted(sources: Result<seq<Fields>>, acc: Fields): Result<Fields> {
    if sources.Ok? then Ok(Overlay(sources.value) + acc) else Err
  }

  lemma DefaultedStep(first: seq<Fields>, rest: seq<Fields>, acc: Fields)
    ensures Overlay(first + rest) + acc == Overlay(rest) + (Overlay(first) + acc)
  {
    OverlayConcat(first, rest);
  }

  lemma {:induction false} MergesExact(g: Graph, content: seq<nat>, depth: nat, count: nat, acc: Fields)
    requires WellFormedGraph(g) && InGraph(g, content) && |content| % 2 == 0 && count <= MAX_NODES
    ensures Agrees(Merges(g, content, depth, count, acc), count,
                   Defaulted(Sources(g, content, FuelAt(depth)), acc), MergeVisits(g, content, FuelAt(depth)))
    decreases FuelAt(depth), 1, |content|
  {
    if content == [] {
      assert map[] + acc == acc;
    } else if !IsMerge(g[content[0]]) {
      MergesExact(g, content[2..], depth, count, acc);
    } else {
      NodeExact(g, content[1], depth, count);
      var v := NodeValue(g, content[1], depth, count);
      if v.result.Ok? {
        var listed := Listed(v.result.value);
        DefaultsOverlay(acc, listed);
        if AllObjs(listed) {
          MergesExact(g, content[2..], depth, v.count, Overlay(ObjFields(listed)) + acc);
          var rest := Sources(g, content[2..], FuelAt(depth));
          if rest.Ok? { DefaultedStep(ObjFields(listed), rest.value, acc); }
        }
      }
    }
  }

  lemma KeyExact(g: Graph, key: nat, depth: nat, count: nat)
    requires WellFormedGraph(g) && key < |g| && count <= MAX_NODES
    ensures Agrees(KeyName(g, key, depth, count), count, Name(g, key, FuelAt(depth)), KeyVisits(g, key, FuelAt(depth)))
    decreases FuelAt(depth), 1, 0
  {
    if IsKey(g[key]) && g[key].tag == "!!int" {
      NodeExact(g, key, depth, count);
    }
  }

  // What the second loop adds: explicit entries whose names are new.
  ghost function Overridden(g: Graph, content: seq<nat>, fuel: nat, seen: set<string>, acc: Fields): Result<Fields>
    requires WellFormedGraph(g) && InGraph(g, content) && |content| % 2 == 0
  {
    var explicit, names := Explicit(g, content, fuel), KeyNames(g, content, fuel);
    if explicit.Ok? && names.Ok? && NoRepeats(names.value) && (forall n :: n in names.value ==> n !in seen) then
      Ok(acc + explicit.value)
    else Err
  }

  lemma NamesJoin(k: string, rest: seq<string>, seen: set<string>)
    requires k !in seen && NoRepeats(rest) && forall n :: n in rest ==> n !in seen + {k}
    ensures NoRepeats([k] + rest)
  {
    var all := [k] + rest;
    forall i, j | 0 <= i < j < |all| ensures all[i] != all[j] {
      assert all[j] == rest[j - 1] && rest[j - 1] in rest;
      if i > 0 { assert all[i] == rest[i - 1]; }
    }
  }

  lemma NamesPart(k: string, rest: seq<string>)
    requires NoRepeats([k] + rest)
    ensures NoRepeats(rest) && k !in rest
  {
    var all := [k] + rest;
    forall i | 0 <= i < |rest| ensures rest[i] != k { assert all[0] != all[i + 1]; }
    forall i, j | 0 <= i < j < |rest| ensures rest[i] != rest[j] { assert all[i + 1] != all[j + 1]; }
  }

  lemma NamesStep(k: string, rest: seq<string>, seen: set<string>)
    ensures NoRepeats([k] + rest) && (forall n :: n in [k] + rest ==> n !in seen) <==>
              k !in seen && NoRepeats(rest) && (forall n :: n in rest ==> n !in seen + {k})
  {
    hide NoRepeats;
    assert forall n :: n in [k] + rest <==> n == k || n in rest;
    if k !in seen && NoRepeats(rest) && forall n :: n in rest ==> n !in seen + {k} { NamesJoin(k, rest, seen); }
    if NoRepeats([k] + rest) { NamesPart(k, rest); }
  }

  lemma ExplicitKeysAreNames(g: Graph, content: seq<nat>, fuel: nat)
    requires WellFormedGraph(g) && InGraph(g, content) && |content| % 2 == 0
    requires Explicit(g, content, fuel).Ok? && KeyNames(g, content, fuel).Ok?
    ensures forall k :: k in Explicit(g, content, fuel).value ==> k in KeyNames(g, content, fuel).value
    decreases |content|
  {
    if content != [] { ExplicitKeysAreNames(g, content[2..], fuel); }
  }

  lemma {:induction false} OverriddenStep(g: Graph, content: seq<nat>, fuel: nat, seen: set<string>, acc: Fields)
    requires WellFormedGraph(g) && InGraph(g, content) && |content| % 2 == 0 && content != []
    ensures var k := Name(g, content[0], fuel);
            Overridden(g, content, fuel, seen, acc) ==
              if k.Err? || k.value in seen then Err
              else if IsMerge(g[content[0]]) then Overridden(g, content[2..], fuel, seen + {k.value}, acc)
              else
                var v := Expand(g, content[1], fuel);
                if v.Err? then Err
                else Overridden(g, content[2..], fuel, seen + {k.value}, acc[k.value := v.value])
  {
    var k, rest := Name(g, content[0], fuel), KeyNames(g, content[2..], fuel);
    if k.Ok? && rest.Ok? {
      NamesStep(k.value, rest.value, seen);
      var more := Explicit(g, content[2..], fuel);
      if more.Ok? && !IsMerge(g[content[0]]) && Expand(g, content[1], fuel).Ok? {
        ExplicitKeysAreNames(g, content[2..], fuel);
        var v := Expand(g, content[1], fuel).value;
        assert acc + (map[k.value := v] + more.value) == acc[k.value := v] + more.value;
      }
    }
  }

  lemma {:induction false} PairsExact(g: Graph, content: seq<nat>, depth: nat, count: nat, seen: set<string>,
                                      acc: Fields)
    requires WellFormedGraph(g) && InGraph(g, content) && |content| % 2 == 0 && count <= MAX_NODES
    ensures Agrees(Pairs(g, content, depth, count, seen, acc), count,
                   Overridden(g, content, FuelAt(depth), seen, acc), PairVisits(g, content, FuelAt(depth)))
    decreases FuelAt(depth), 2, |content|
  {
    var f := FuelAt(depth);
    if content == [] {
      assert acc + map[] == acc;
    } else {
      OverriddenStep(g, content, f, seen, acc);
      KeyExact(g, content[0], depth, count);
      var k := KeyName(g, content[0], depth, count);
      if k.result.Ok? && k.result.value !in seen {
        if IsMerge(g[content[0]]) {
          PairsExact(g, content[2..], depth, k.count, seen + {k.result.value}, acc);
        } else {
          NodeExact(g, content[1], depth, k.count);
          var v := NodeValue(g, content[1], depth, k.count);
          if v.result.Ok? {
            PairsExact(g, content[2..], depth, v.count, seen + {k.result.value}, acc[k.result.value := v.result.value]);
          }
        }
      }
    }
  }

  // parseObject's call: depth 0, counter 0.
  lemma RootExact(g: Graph, root: nat)
    requires WellFormedGraph(g) && root < |g|
    ensures var r := NodeValue(g, root, 0, 0);
            && r.count <= 100001
            && (r.result.Ok? <==> Expand(g, root, 65).Ok? && Visits(g, root, 65) <= 100000)
            && (r.result.Ok? ==> r.result == Expand(g, root, 65) && r.count == Visits(g, root, 65))
  {
    NodeExact(g, root, 0, 0);
  }

  // ------------------------------------------- more levels change no value

  lemma {:induction false} ExpandMore(g: Graph, id: nat, fuel: nat)
    requires WellFormedGraph(g) && id < |g| && Expand(g, id, fuel).Ok?
    ensures Expand(g, id, fuel + 1) == Expand(g, id, fuel)
    decreases fuel, 0, 0
  {
    assert WellFormedNode(g, g[id]);
    match g[id]
    case Scalar(_, _, _) =>
    case Alias(target) => ExpandMore(g, target, fuel - 1);
    case Sequence(content) => ExpandAllMore(g, content, fuel - 1);
    case Mapping(content) =>
      SourcesMore(g, content, fuel - 1);
      PairsMore(g, content, fuel - 1);
  }

  lemma {:induction false} ExpandAllMore(g: Graph, content: seq<nat>, fuel: nat)
    requires WellFormedGraph(g) && InGraph(g, content) && ExpandAll(g, content, fuel).Ok?
    ensures ExpandAll(g, content, fuel + 1) == ExpandAll(g, content, fuel)
    decreases fuel, 1, |content|
  {
    if content != [] {
      ExpandMore(g, content[0], fuel);
      ExpandAllMore(g, content[1..], fuel);
    }
  }

  lemma {:induction false} SourcesMore(g: Graph, content: seq<nat>, fuel: nat)
    requires WellFormedGraph(g) && InGraph(g, content) && |content| % 2 == 0 && Sources(g, content, fuel).Ok?
    ensures Sources(g, content, fuel + 1) == Sources(g, content, fuel)
    decreases fuel, 1, |content|
  {
    if content != [] {
      SourcesMore(g, content[2..], fuel);
      if IsMerge(g[content[0]]) { ExpandMore(g, content[1], fuel); }
    }
  }

  lemma {:induction false} PairsMore(g: Graph, content: seq<nat>, fuel: nat)
    requires WellFormedGraph(g) && InGraph(g, content) && |content| % 2 == 0
    requires Explicit(g, content, fuel).Ok? && KeyNames(g, content, fuel).Ok?
    ensures Explicit(g, content, fuel + 1) == Explicit(g, content, fuel)
    ensures KeyNames(g, content, fuel + 1) == KeyNames(g, content, fuel)
    decreases fuel, 2, |content|
  {
    if content != [] {
      PairsMore(g, content[2..], fuel);
      if g[content[0]].tag == "!!int" { ExpandMore(g, content[0], fuel); }
      if !IsMerge(g[content[0]]) { ExpandMore(g, content[1], fuel); }
    }
  }

  // ------------------------------------------------- cycles are never valued

  ghost predicate Edge(g: Graph, a: nat, b: nat)
    requires a < |g|
  {
    match g[a]
    case Scalar(_, _, _) => false
    case Alias(target) => b == target
    case Sequence(content) => b in content
    case Mapping(content) => exists i :: 0 <= i < |content| / 2 && b == content[2 * i + 1]
  }

  ghost predicate Walk(g: Graph, path: seq<nat>) {
    && InGraph(g, path)
    && forall i :: 0 <= i < |path| - 1 ==> Edge(g, path[i], path[i + 1])
  }

  lemma {:induction false} ElementsExpand(g: Graph, content: seq<nat>, fuel: nat, i: nat)
    requires WellFormedGraph(g) && InGraph(g, content) && ExpandAll(g, content, fuel).Ok? && i < |content|
    ensures |ExpandAll(g, content, fuel).value| == |content|
    ensures Expand(g, content[i], fuel) == Ok(ExpandAll(g, content, fuel).value[i])
    decreases |content|
  {
    if |content| > 1 { ElementsExpand(g, content[1..], fuel, if i > 0 then i - 1 else 0); }
  }

  lemma {:induction false} ValuesExpand(g: Graph, content: seq<nat>, fuel: nat, i: nat)
    requires WellFormedGraph(g) && InGraph(g, content) && |content| % 2 == 0
    requires Sources(g, content, fuel).Ok? && Explicit(g, content, fuel).Ok? && i < |content| / 2
    ensures Expand(g, content[2 * i + 1], fuel).Ok?
  {
    if i > 0 {
      assert content[2..][2 * (i - 1) + 1] == content[2 * i + 1];
      ValuesExpand(g, content[2..], fuel, i - 1);
    }
  }

  lemma ChildExpands(g: Graph, a: nat, b: nat, fuel: nat)
    requires WellFormedGraph(g) && a < |g| && b < |g| && Edge(g, a, b) && Expand(g, a, fuel).Ok?
    ensures fuel > 0 && Expand(g, b, fuel - 1).Ok?
  {
    assert WellFormedNode(g, g[a]);
    match g[a]
    case Alias(target) =>
    case Sequence(content) =>
      var i :| 0 <= i < |content| && content[i] == b;
      ElementsExpand(g, content, fuel - 1, i);
    case Mapping(content) =>
      var i :| 0 <= i < |content| / 2 && b == content[2 * i + 1];
      ValuesExpand(g, content, fuel - 1, i);
  }

  lemma {:induction false} WalkExpands(g: Graph, path: seq<nat>, fuel: nat, k: nat)
    requires WellFormedGraph(g) && Walk(g, path) && k < |path| && Expand(g, path[0], fuel).Ok?
    ensures k <= fuel && Expand(g, path[k], fuel - k).Ok?
  {
    if k > 0 {
      WalkExpands(g, path, fuel, k - 1);
      ChildExpands(g, path[k - 1], path[k], fuel - (k - 1));
    }
  }

  // A node that reaches itself has no finite expansion at all.
  lemma {:induction false} CycleNeverExpands(g: Graph, path: seq<nat>, fuel: nat)
    requires WellFormedGraph(g) && Walk(g, path) && |path| >= 2 && path[0] == path[|path| - 1]
    ensures Expand(g, path[0], fuel).Err?
    decreases fuel
  {
    if Expand(g, path[0], fuel).Ok? {
      WalkExpands(g, path, fuel, |path| - 1);
      CycleNeverExpands(g, path, fuel - (|path| - 1));
    }
  }

  // Any root that can walk into a cycle is refused, within the visit bound.
  lemma CyclesAreRefused(g: Graph, path: seq<nat>, i: nat, j: nat, depth: nat, count: nat)
    requires WellFormedGraph(g) && Walk(g, path) && i < j < |path| && path[i] == path[j] && count <= MAX_NODES
    ensures NodeValue(g, path[0], depth, count).result.Err?
    ensures NodeValue(g, path[0], depth, count).count <= MAX_NODES + 1
  {
    NodeExact(g, path[0], depth, count);
    var fuel := FuelAt(depth);
    if Expand(g, path[0], fuel).Ok? {
      WalkExpands(g, path, fuel, i);
      var loop := path[i..j + 1];
      assert forall k :: 0 <= k < |loop| ==> loop[k] == path[i + k];
      CycleNeverExpands(g, loop, fuel - i);
    }
  }
}
