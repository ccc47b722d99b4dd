// nodeValue as it is written: recursion with loops and one shared counter.
module YamlLoops {
  import opened Basics
  import opened SdlDocument
  import opened YamlNodes

  method MergeDefaults(acc: Fields, defaults: Fields) returns (r: Fields)
    ensures r == defaults + acc
  {
    r := acc;
    var todo := defaults.Keys;
    while todo != {}
      invariant todo <= defaults.Keys
      invariant r == (defaults - todo) + acc
      decreases |todo|
    {
      var key :| key in todo;
      todo := todo - {key};
      if key !in r { r := r[key := defaults[key]]; }
    }
  }

  method MergeSources(acc: Fields, sources: seq<Value>) returns (r: Result<Fields>)
    ensures r == AddDefaults(acc, sources)
  {
    var result := acc;
    for i := 0 to |sources|
      invariant AddDefaults(acc, sources) == AddDefaults(result, sources[i..])
    {
      assert sources[i..][1..] == sources[i + 1..];
      if !sources[i].Obj? { return Err; }
      result := MergeDefaults(result, sources[i].fields);
    }
    return Ok(result);
  }

  method Evaluate(g: Graph, id: nat, depth: nat, count: nat) returns (r: Result<Value>, total: nat)
    requires WellFormedGraph(g) && id < |g| && count <= MAX_NODES
    ensures Counted(r, total) == NodeValue(g, id, depth, count)
    decreases MAX_NODES + 1 - count, 0
  {
    total := count + 1;
    if total > MAX_NODES || depth > MAX_DEPTH { return Err, total; }
    assert WellFormedNode(g, g[id]);
    match g[id] {
      case Scalar(_, _, _) => r := ScalarValue(g[id]);
      case Alias(target) => r, total := Evaluate(g, target, depth + 1, total);
      case Sequence(content) => r, total := EvaluateSequence(g, content, depth + 1, total);
      case Mapping(content) => r, total := EvaluateMapping(g, content, depth + 1, total);
    }
  }

  method EvaluateSequence(g: Graph, content: seq<nat>, depth: nat, count: nat) returns (r: Result<Value>, total: nat)
    requires WellFormedGraph(g) && InGraph(g, content) && count <= MAX_NODES
    ensures total == NodeValues(g, content, depth, count).count
    ensures r == var all := NodeValues(g, content, depth, count).result; if all.Ok? then Ok(Arr(all.value)) else Err
    decreases MAX_NODES + 1 - count, 1
  {
    total := count;
    var values: seq<Value> := [];
    assert content[0..] == content;
    assert forall tail: seq<Value> :: [] + tail == tail;
    for i := 0 to |content|
      invariant count <= total <= MAX_NODES
      invariant var rest := NodeValues(g, content[i..], depth, total);
                NodeValues(g, content, depth, count)
                == Counted(if rest.result.Ok? then Ok(values + rest.result.value) else Err, rest.count)
    {
      assert content[i..][1..] == content[i + 1..];
      var v: Result<Value>;
      v, total := Evaluate(g, content[i], depth, total);
      if v.Err? { return Err, total; }
      assert forall tail: seq<Value> :: values + ([v.value] + tail) == values + [v.value] + tail;
      values := values + [v.value];
    }
    assert content[|content|..] == [] && values + [] == values;
    return Ok(Arr(values)), total;
  }

  method EvaluateMapping(g: Graph, content: seq<nat>, depth: nat, count: nat) returns (r: Result<Value>, total: nat)
    requires WellFormedGraph(g) && InGraph(g, content) && |content| % 2 == 0 && count <= MAX_NODES
    ensures var m := Merges(g, content, depth, count, map[]);
            if m.result.Err? then r.Err? && total == m.count
            else
              var p := Pairs(g, content, depth, m.count, {}, m.result.value);
              total == p.count && r == if p.result.Ok? then Ok(Obj(p.result.value)) else Err
    decreases MAX_NODES + 1 - count, 3
  {
    var merged: Result<Fields>;
    merged, total := EvaluateMerges(g, content, depth, count);
    if merged.Err? { return Err, total; }
    var result: Result<Fields>;
    result, total := EvaluatePairs(g, content, depth, total, merged.value);
    if result.Err? { return Err, total; }
    r := Ok(Obj(result.value));
  }

  method EvaluateMerges(g: Graph, content: seq<nat>, depth: nat, count: nat) returns (r: Result<Fields>, total: nat)
    requires WellFormedGraph(g) && InGraph(g, content) && |content| % 2 == 0 && count <= MAX_NODES
    ensures Counted(r, total) == Merges(g, content, depth, count, map[])
    decreases MAX_NODES + 1 - count, 1
  {
    total := count;
    var result: Fields := map[];
    var i := 0;
    while i < |content|
      invariant i <= |content| && i % 2 == 0 && count <= total <= MAX_NODES
      invariant Merges(g, content, depth, count, map[]) == Merges(g, content[i..], depth, total, result)
    {
      assert content[i..][2..] == content[i + 2..] && content[i..][1] == content[i + 1];
      if IsMerge(g[content[i]]) {
        var v: Result<Value>;
        v, total := Evaluate(g, content[i + 1], depth, total);
        if v.Err? { return Err, total; }
        var next := MergeSources(result, Listed(v.value));
        if next.Err? { return Err, total; }
        result := next.value;
      }
      i := i + 2;
    }
    r := Ok(result);
  }

  method EvaluateKey(g: Graph, key: nat, depth: nat, count: nat) returns (r: Result<string>, total: nat)
    requires WellFormedGraph(g) && key < |g| && count <= MAX_NODES
    ensures Counted(r, total) == KeyName(g, key, depth, count)
    decreases MAX_NODES + 1 - count, 1
  {
    total := count;
    if !IsKey(g[key]) { return Err, total; }
    if g[key].tag != "!!int" { return Ok(g[key].text), total; }
    var number: Result<Value>;
    number, total := Evaluate(g, key, depth, total);
    if number.Err? || !number.value.Num? { return Err, total; }
    r := Ok(number.value.text);
  }

  method EvaluatePairs(g: Graph, content: seq<nat>, depth: nat, count: nat, defaults: Fields)
    returns (r: Result<Fields>, total: nat)
    requires WellFormedGraph(g) && InGraph(g, content) && |content| % 2 == 0 && count <= MAX_NODES
    ensures Counted(r, total) == Pairs(g, content, depth, count, {}, defaults)
    decreases MAX_NODES + 1 - count, 2
  {
    total := count;
    var result, seen := defaults, {};
    var i := 0;
    while i < |content|
      invariant i <= |content| && i % 2 == 0 && count <= total <= MAX_NODES
      invariant Pairs(g, content, depth, count, {}, defaults) == Pairs(g, content[i..], depth, total, seen, result)
    {
      assert content[i..][2..] == content[i + 2..] && content[i..][1] == content[i + 1];
      var name: Result<string>;
      name, total := EvaluateKey(g, content[i], depth, total);
      if name.Err? || name.value in seen { return Err, total; }
      seen := seen + {name.value};
      if !IsMerge(g[content[i]]) {
        var v: Result<Value>;
        v, total := Evaluate(g, content[i + 1], depth, total);
        if v.Err? { return Err, total; }
        result := result[name.value := v.value];
      }
      i := i + 2;
    }
    r := Ok(result);
  }
}
