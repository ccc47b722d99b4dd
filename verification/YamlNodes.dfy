// Expanding a YAML node graph into a value tree
// (nodeValue, internal/deploymentconfig/patch.go). Aliases may form cycles;
// the shared visit counter is what stops the recursion.
module YamlNodes {
  import opened Basics
  import opened SdlDocument

  // Nodes live in document order; content and aliases are positions in it. A
  // scalar carries what the YAML and JSON libraries decode it to, if anything.
  datatype Node =
    | Scalar(tag: string, text: string, decoded: Option<Value>)
    | Mapping(content: seq<nat>)
    | Sequence(content: seq<nat>)
    | Alias(target: nat)

  type Graph = seq<Node>

  predicate InGraph(g: Graph, ids: seq<nat>) {
    forall i :: 0 <= i < |ids| ==> ids[i] < |g|
  }

  predicate WellFormedNode(g: Graph, n: Node) {
    match n
    case Scalar(tag, _, decoded) => tag == "!!int" && decoded.Some? ==> decoded.value.Num?
    case Mapping(content) => InGraph(g, content) && |content| % 2 == 0
    case Sequence(content) => InGraph(g, content)
    case Alias(target) => target < |g|
  }

  ghost predicate WellFormedGraph(g: Graph) {
    forall i :: 0 <= i < |g| ==> WellFormedNode(g, g[i])
  }

  const MAX_NODES: nat := 100000
  const MAX_DEPTH: nat := 64
  const SCALAR_TAGS: set<string> := {"!!str", "!!null", "!!int", "!!float", "!!bool"}

  predicate IsMerge(n: Node) {
    n.Scalar? && n.tag == "!!merge"
  }

  predicate IsKey(n: Node) {
    n.Scalar? && (n.tag == "!!str" || n.tag == "!!merge" || n.tag == "!!int")
  }

  function ScalarValue(n: Node): Result<Value>
    requires n.Scalar?
  {
    if n.tag in SCALAR_TAGS && n.decoded.Some? then Ok(n.decoded.value) else Err
  }

  // The objects a merge value lists: itself, or its elements.
  function Listed(v: Value): seq<Value> {
    if v.Arr? then v.items else [v]
  }

  // Defaults never displace what is already there.
  function AddDefaults(acc: Fields, sources: seq<Value>): Result<Fields>
    decreases |sources|
  {
    if sources == [] then Ok(acc)
    else if !sources[0].Obj? then Err
    else AddDefaults(sources[0].fields + acc, sources[1..])
  }

  // -------------------------------------------------- the counted expansion

  // A result together with the visit counter after it.
  datatype Counted<+T> = Counted(result: Result<T>, count: nat)

  ghost function NodeValue(g: Graph, id: nat, depth: nat, count: nat): (r: Counted<Value>)
    requires WellFormedGraph(g) && id < |g| && count <= MAX_NODES
    ensures count < r.count <= MAX_NODES + 1
    ensures r.result.Ok? ==> r.count <= MAX_NODES
    decreases MAX_NODES + 1 - count, 0, 0
  {
    var c := count + 1;
    if c > MAX_NODES || depth > MAX_DEPTH then Counted(Err, c)
    else
      assert WellFormedNode(g, g[id]);
      match g[id]
      case Scalar(_, _, _) => Counted(ScalarValue(g[id]), c)
      case Alias(target) => NodeValue(g, target, depth + 1, c)
      case Sequence(content) =>
        var r := NodeValues(g, content, depth + 1, c);
        Counted(if r.result.Ok? then Ok(Arr(r.result.value)) else Err, r.count)
      case Mapping(content) =>
        var m := Merges(g, content, depth + 1, c, map[]);
        if m.result.Err? then Counted(Err, m.count)
        else
          var p := Pairs(g, content, depth + 1, m.count, {}, m.result.value);
          Counted(if p.result.Ok? then Ok(Obj(p.result.value)) else Err, p.count)
  }

  ghost function NodeValues(g: Graph, content: seq<nat>, depth: nat, count: nat): (r: Counted<seq<Value>>)
    requires WellFormedGraph(g) && InGraph(g, content) && count <= MAX_NODES
    ensures count <= r.count <= MAX_NODES + 1
    ensures r.result.Ok? ==> r.count <= MAX_NODES
    decreases MAX_NODES + 1 - count, 1, |content|
  {
    if content == [] then Counted(Ok([]), count)
    else
      var v := NodeValue(g, content[0], depth, count);
      if v.result.Err? then Counted(Err, v.count)
      else
        var rest := NodeValues(g, content[1..], depth, v.count);
        Counted(if rest.result.Ok? then Ok([v.result.value] + rest.result.value) else Err, rest.count)
  }

  // The first loop over a mapping: merge keys, in document order.
  ghost function Merges(g: Graph, content: seq<nat>, depth: nat, count: nat, acc: Fields): (r: Counted<Fields>)
    requires WellFormedGraph(g) && InGraph(g, content) && |content| % 2 == 0 && count <= MAX_NODES
    ensures count <= r.count <= MAX_NODES + 1
    ensures r.result.Ok? ==> r.count <= MAX_NODES
    decreases MAX_NODES + 1 - count, 1, |content|
  {
    if content == [] then Counted(Ok(acc), count)
    else if !IsMerge(g[content[0]]) then Merges(g, content[2..], depth, count, acc)
    else
      var v := NodeValue(g, content[1], depth, count);
      if v.result.Err? then Counted(Err, v.count)
      else
        var next := AddDefaults(acc, Listed(v.result.value));
        if next.Err? then Counted(Err, v.count) else Merges(g, content[2..], depth, v.count, next.value)
  }

  ghost function KeyName(g: Graph, key: nat, depth: nat, count: nat): (r: Counted<string>)
    requires WellFormedGraph(g) && key < |g| && count <= MAX_NODES
    ensures count <= r.count <= MAX_NODES + 1
    ensures r.result.Ok? ==> r.count <= MAX_NODES
    decreases MAX_NODES + 1 - count, 1, 0
  {
    assert WellFormedNode(g, g[key]);
    if !IsKey(g[key]) then Counted(Err, count)
    else if g[key].tag != "!!int" then Counted(Ok(g[key].text), count)
    else
      var v := NodeValue(g, key, depth, count);
      Counted(if v.result.Ok? && v.result.value.Num? then Ok(v.result.value.text) else Err, v.count)
  }

  // The second loop: explicit keys, each at most once.
  ghost function Pairs(g: Graph, content: seq<nat>, depth: nat, count: nat, seen: set<string>,
                       acc: Fields): (r: Counted<Fields>)
    requires WellFormedGraph(g) && InGraph(g, content) && |content| % 2 == 0 && count <= MAX_NODES
    ensures count <= r.count <= MAX_NODES + 1
    ensures r.result.Ok? ==> r.count <= MAX_NODES
    decreases MAX_NODES + 1 - count, 2, |content|
  {
    if content == [] then Counted(Ok(acc), count)
    else
      var k := KeyName(g, content[0], depth, count);
      if k.result.Err? || k.result.value in seen then Counted(Err, k.count)
      else if IsMerge(g[content[0]]) then
        Pairs(g, content[2..], depth, k.count, seen + {k.result.value}, acc)
      else
        var v := NodeValue(g, content[1], depth, k.count);
        if v.result.Err? then Counted(Err, v.count)
        else Pairs(g, content[2..], depth, v.count, seen + {k.result.value}, acc[k.result.value := v.result.value])
  }

  // ------------------------------------------------ the reference expansion

  // What a node denotes, with no counter: expansion within `fuel` levels.
  ghost function Expand(g: Graph, id: nat, fuel: nat): Result<Value>
    requires WellFormedGraph(g) && id < |g|
    decreases fuel, 0, 0
  {
    if fuel == 0 then Err
    else
      assert WellFormedNode(g, g[id]);
      match g[id]
      case Scalar(_, _, _) => ScalarValue(g[id])
      case Alias(target) => Expand(g, target, fuel - 1)
      case Sequence(content) =>
        var r := ExpandAll(g, content, fuel - 1);
        if r.Ok? then Ok(Arr(r.value)) else Err
      case Mapping(content) =>
        var sources := Sources(g, content, fuel - 1);
        var explicit := Explicit(g, content, fuel - 1);
        var names := KeyNames(g, content, fuel - 1);
        if sources.Err? || explicit.Err? || names.Err? || !NoRepeats(names.value) then Err
        else Ok(Obj(Overlay(sources.value) + explicit.value))
  }

  ghost function ExpandAll(g: Graph, content: seq<nat>, fuel: nat): Result<seq<Value>>
    requires WellFormedGraph(g) && InGraph(g, content)
    decreases fuel, 1, |content|
  {
    if content == [] then Ok([])
    else
      var v, rest := Expand(g, content[0], fuel), ExpandAll(g, content[1..], fuel);
      if v.Err? || rest.Err? then Err else Ok([v.value] + rest.value)
  }

  predicate AllObjs(vs: seq<Value>) {
    forall i :: 0 <= i < |vs| ==> vs[i].Obj?
  }

  function ObjFields(vs: seq<Value>): seq<Fields>
    requires AllObjs(vs)
  {
    seq(|vs|, i requires 0 <= i < |vs| => vs[i].fields)
  }

  // The merge sources of a mapping, in the order they are listed.
  ghost function Sources(g: Graph, content: seq<nat>, fuel: nat): Result<seq<Fields>>
    requires WellFormedGraph(g) && InGraph(g, content) && |content| % 2 == 0
    decreases fuel, 1, |content|
  {
    if content == [] then Ok([])
    else
      var rest := Sources(g, content[2..], fuel);
      if !IsMerge(g[content[0]]) then rest
      else
        var v := Expand(g, content[1], fuel);
        if v.Err? || rest.Err? || !AllObjs(Listed(v.value)) then Err else Ok(ObjFields(Listed(v.value)) + rest.value)
  }

  ghost function Name(g: Graph, key: nat, fuel: nat): Result<string>
    requires WellFormedGraph(g) && key < |g|
    decreases fuel, 1, 0
  {
    if !IsKey(g[key]) then Err
    else if g[key].tag != "!!int" then Ok(g[key].text)
    else
      var v := Expand(g, key, fuel);
      if v.Ok? && v.value.Num? then Ok(v.value.text) else Err
  }

  // The key names of a mapping, merge keys included, in document order.
  ghost function KeyNames(g: Graph, content: seq<nat>, fuel: nat): Result<seq<string>>
    requires WellFormedGraph(g) && InGraph(g, content) && |content| % 2 == 0
    decreases fuel, 2, |content|
  {
    if content == [] then Ok([])
    else
      var k, rest := Name(g, content[0], fuel), KeyNames(g, content[2..], fuel);
      if k.Err? || rest.Err? then Err else Ok([k.value] + rest.value)
  }

  ghost predicate NoRepeats(names: seq<string>) {
    forall i, j :: 0 <= i < j < |names| ==> names[i] != names[j]
  }

  ghost function Explicit(g: Graph, content: seq<nat>, fuel: nat): Result<Fields>
    requires WellFormedGraph(g) && InGraph(g, content) && |content| % 2 == 0
    decreases fuel, 2, |content|
  {
    if content == [] then Ok(map[])
    else
      var rest := Explicit(g, content[2..], fuel);
      if IsMerge(g[content[0]]) then rest
      else
        var k, v := Name(g, content[0], fuel), Expand(g, content[1], fuel);
        if k.Err? || v.Err? || rest.Err? then Err else Ok(map[k.value := v.value] + rest.value)
  }

  // The earliest-listed source that defines a key provides it.
  ghost function Overlay(sources: seq<Fields>): Fields {
    if sources == [] then map[] else Overlay(sources[1..]) + sources[0]
  }

  lemma {:induction false} EarliestSourceWins(sources: seq<Fields>, key: string)
    ensures key in Overlay(sources) <==> exists i :: 0 <= i < |sources| && key in sources[i]
    ensures forall i :: 0 <= i < |sources| && key in sources[i] && (forall j :: 0 <= j < i ==> key !in sources[j]) ==>
              Overlay(sources)[key] == sources[i][key]
  {
    if sources != [] {
      var rest := sources[1..];
      EarliestSourceWins(rest, key);
      forall i | 0 <= i < |sources| && key in sources[i] && forall j :: 0 <= j < i ==> key !in sources[j]
        ensures Overlay(sources)[key] == sources[i][key]
      {
        if i > 0 {
          assert rest[i - 1] == sources[i] && key !in sources[0];
          assert forall j :: 0 <= j < i - 1 ==> rest[j] == sources[j + 1];
        }
      }
      if key in Overlay(sources) && key !in sources[0] {
        var i :| 0 <= i < |rest| && key in rest[i];
        assert key in sources[i + 1];
      }
      if i :| 0 <= i < |sources| && key in sources[i] {
        if i > 0 { assert rest[i - 1] == sources[i]; }
      }
    }
  }
}
