// Where the value of a key of a mapping comes from: its own entry wherever it
// stands, otherwise the first listed merge source that defines the key.
module YamlMerging {
  import opened Basics
  import opened SdlDocument
  import opened YamlNodes
  import opened YamlExpansion

  // A merge value is a list of sources or one source.
  ghost predicate Offers(v: Value, sources: seq<Value>) {
    v == Arr(sources) || (v.Obj? && sources == [v])
  }

  ghost predicate FirstDefining(sources: seq<Value>, i: nat, key: string) {
    && i < |sources| && sources[i].Obj? && key in sources[i].fields
    && forall j :: 0 <= j < i ==> sources[j].Obj? && key !in sources[j].fields
  }

  // The inner loop over a merge value, from what earlier merges left.
  lemma FirstListedWins(acc: Fields, v: Value, sources: seq<Value>, i: nat, key: string)
    requires Offers(v, sources) && AllObjs(sources) && FirstDefining(sources, i, key) && key !in acc
    ensures var r := AddDefaults(acc, Listed(v));
            r.Ok? && key in r.value && r.value[key] == sources[i].fields[key]
  {
    DefaultsOverlay(acc, sources);
    FirstOverlays(sources, i, key);
  }

  lemma FirstOverlays(sources: seq<Value>, i: nat, key: string)
    requires AllObjs(sources) && FirstDefining(sources, i, key)
    ensures key in Overlay(ObjFields(sources)) && Overlay(ObjFields(sources))[key] == sources[i].fields[key]
  {
    var fields := ObjFields(sources);
    assert fields[i] == sources[i].fields && forall j :: 0 <= j < i ==> fields[j] == sources[j].fields;
    EarliestSourceWins(fields, key);
  }

  ghost predicate IsPair(g: Graph, content: seq<nat>, p: nat) {
    InGraph(g, content) && |content| % 2 == 0 && 2 * p + 1 < |content|
  }

  ghost predicate FirstMerge(g: Graph, content: seq<nat>, p: nat)
    requires IsPair(g, content, p)
  {
    && g[content[2 * p]].Scalar? && g[content[2 * p]].tag == "!!merge"
    && forall q :: 0 <= q < p ==> g[content[2 * q]].Scalar? ==> g[content[2 * q]].tag != "!!merge"
  }

  lemma {:induction false} SourcesFromFirst(g: Graph, content: seq<nat>, fuel: nat, p: nat)
    requires WellFormedGraph(g) && IsPair(g, content, p) && FirstMerge(g, content, p)
    requires Sources(g, content, fuel).Ok?
    ensures var v := Expand(g, content[2 * p + 1], fuel);
            && v.Ok? && AllObjs(Listed(v.value))
            && ObjFields(Listed(v.value)) <= Sources(g, content, fuel).value
    decreases p
  {
    if p > 0 {
      var rest := content[2..];
      assert !IsMerge(g[content[2 * 0]]);
      assert rest[2 * (p - 1)] == content[2 * p] && rest[2 * (p - 1) + 1] == content[2 * p + 1];
      forall q | 0 <= q < p - 1 ensures !IsMerge(g[rest[2 * q]]) {
        assert rest[2 * q] == content[2 * (q + 1)];
      }
      SourcesFromFirst(g, rest, fuel, p - 1);
    }
  }

  // No entry of the mapping itself carries the key.
  ghost predicate NoEntry(g: Graph, content: seq<nat>, fuel: nat, key: string)
    requires WellFormedGraph(g) && InGraph(g, content) && |content| % 2 == 0
  {
    forall q {:trigger content[2 * q]} :: 0 <= q < |content| / 2 ==>
      IsMerge(g[content[2 * q]]) || Name(g, content[2 * q], fuel) != Ok(key)
  }

  lemma {:induction false} NoEntryNotExplicit(g: Graph, content: seq<nat>, fuel: nat, key: string)
    requires WellFormedGraph(g) && InGraph(g, content) && |content| % 2 == 0
    requires Explicit(g, content, fuel).Ok? && NoEntry(g, content, fuel, key)
    ensures key !in Explicit(g, content, fuel).value
    decreases |content|
  {
    if content != [] {
      var rest := content[2..];
      assert IsMerge(g[content[2 * 0]]) || Name(g, content[2 * 0], fuel) != Ok(key);
      forall q | 0 <= q < |rest| / 2 ensures IsMerge(g[rest[2 * q]]) || Name(g, rest[2 * q], fuel) != Ok(key) {
        assert rest[2 * q] == content[2 * (q + 1)];
      }
      NoEntryNotExplicit(g, rest, fuel, key);
    }
  }

  lemma OverlayPrefix(first: seq<Fields>, all: seq<Fields>, key: string)
    requires first <= all && key in Overlay(first)
    ensures key in Overlay(all) && Overlay(all)[key] == Overlay(first)[key]
  {
    OverlayConcat(first, all[|first|..]);
    assert all == first + all[|first|..];
  }

  // A key without an entry has the value the first listed source gives it.
  lemma MergeOrder(g: Graph, id: nat, fuel: nat, p: nat, sources: seq<Value>, i: nat, key: string)
    requires WellFormedGraph(g) && id < |g| && g[id].Mapping? && fuel > 0 && Expand(g, id, fuel).Ok?
    requires IsPair(g, g[id].content, p) && FirstMerge(g, g[id].content, p)
    requires NoEntry(g, g[id].content, fuel - 1, key)
    requires var v := Expand(g, g[id].content[2 * p + 1], fuel - 1);
             v.Ok? && Offers(v.value, sources) && FirstDefining(sources, i, key)
    ensures var r := Expand(g, id, fuel).value;
            r.Obj? && key in r.fields && r.fields[key] == sources[i].fields[key]
  {
    var content := g[id].content;
    assert WellFormedNode(g, g[id]);
    SourcesFromFirst(g, content, fuel - 1, p);
    NoEntryNotExplicit(g, content, fuel - 1, key);
    FirstOverlays(sources, i, key);
    OverlayPrefix(ObjFields(sources), Sources(g, content, fuel - 1).value, key);
  }

  // The element of a merge list defines the key.
  ghost predicate Defines(g: Graph, id: nat, fuel: nat, key: string)
    requires WellFormedGraph(g) && id < |g|
  {
    var v := Expand(g, id, fuel);
    v.Ok? && v.value.Obj? && key in v.value.fields
  }

  // `<<: [a, b, ...]`: the first element in the document that defines the key
  // provides it.
  lemma SequenceMergeOrder(g: Graph, id: nat, fuel: nat, p: nat, list: seq<nat>, i: nat, key: string)
    requires WellFormedGraph(g) && id < |g| && g[id].Mapping? && fuel > 1 && Expand(g, id, fuel).Ok?
    requires IsPair(g, g[id].content, p) && FirstMerge(g, g[id].content, p)
    requires g[g[id].content[2 * p + 1]] == Sequence(list)
    requires NoEntry(g, g[id].content, fuel - 1, key)
    requires InGraph(g, list) && i < |list| && Defines(g, list[i], fuel - 2, key)
    requires forall j :: 0 <= j < i ==> !Defines(g, list[j], fuel - 2, key)
    ensures var r := Expand(g, id, fuel).value;
            r.Obj? && key in r.fields && r.fields[key] == Expand(g, list[i], fuel - 2).value.fields[key]
  {
    var content := g[id].content;
    assert WellFormedNode(g, g[id]);
    SourcesFromFirst(g, content, fuel - 1, p);
    var v := Expand(g, content[2 * p + 1], fuel - 1).value;
    assert ExpandAll(g, list, fuel - 2) == Ok(v.items);
    forall j | 0 <= j < |list| ensures |v.items| == |list| && Expand(g, list[j], fuel - 2) == Ok(v.items[j]) {
      ElementsExpand(g, list, fuel - 2, j);
    }
    ListedObjects(v.items);
    MergeOrder(g, id, fuel, p, v.items, i, key);
  }

  lemma ListedObjects(items: seq<Value>)
    requires AllObjs(Listed(Arr(items)))
    ensures AllObjs(items)
  {
  }

  // -------------------------------------------------------- explicit entries

  // A scalar has the value it decodes to, for these five tags and no others.
  lemma ScalarsExpand(g: Graph, id: nat, fuel: nat)
    requires WellFormedGraph(g) && id < |g| && g[id].Scalar? && fuel > 0
    ensures Expand(g, id, fuel) ==
              if g[id].tag in ["!!str", "!!null", "!!int", "!!float", "!!bool"] && g[id].decoded.Some? then
                Ok(g[id].decoded.value)
              else Err
  {
    hide Explicit, KeyNames, Sources;
  }

  // The name a key node declares, read off the node.
  ghost predicate Names(key: Node, name: string) {
    && key.Scalar?
    && ((key.tag == "!!str" && key.text == name) || (key.tag == "!!int" && key.decoded == Some(Num(name))))
  }

  lemma NamesIsName(g: Graph, key: nat, fuel: nat, name: string)
    requires WellFormedGraph(g) && key < |g| && fuel > 0 && Names(g[key], name)
    ensures !IsMerge(g[key]) && Name(g, key, fuel) == Ok(name)
  {
    assert "!!str" != "!!int" && "!!str" != "!!merge" && "!!int" != "!!merge";
  }

  lemma {:induction false} ExplicitHolds(g: Graph, content: seq<nat>, fuel: nat, q: nat, name: string)
    requires WellFormedGraph(g) && IsPair(g, content, q) && Names(g[content[2 * q]], name) && fuel > 0
    requires Explicit(g, content, fuel).Ok? && KeyNames(g, content, fuel).Ok?
    requires NoRepeats(KeyNames(g, content, fuel).value)
    ensures var e := Explicit(g, content, fuel).value;
            name in e && Expand(g, content[2 * q + 1], fuel) == Ok(e[name])
    decreases q
  {
    hide Names, Name;
    var rest := content[2..];
    var k, more := Name(g, content[0], fuel).value, KeyNames(g, rest, fuel).value;
    NamesPart(k, more);
    if q == 0 {
      NamesIsName(g, content[0], fuel, name);
      ExplicitKeysAreNames(g, rest, fuel);
    } else {
      assert rest[2 * (q - 1)] == content[2 * q] && rest[2 * (q - 1) + 1] == content[2 * q + 1];
      ExplicitHolds(g, rest, fuel, q - 1, name);
    }
  }

  // An entry of the mapping itself always provides its key.
  lemma EntryProvides(g: Graph, id: nat, fuel: nat, q: nat, name: string)
    requires WellFormedGraph(g) && id < |g| && g[id].Mapping? && fuel > 1 && Expand(g, id, fuel).Ok?
    requires IsPair(g, g[id].content, q) && Names(g[g[id].content[2 * q]], name)
    ensures var r := Expand(g, id, fuel).value;
            r.Obj? && name in r.fields && Expand(g, g[id].content[2 * q + 1], fuel - 1) == Ok(r.fields[name])
  {
    hide Names, Name;
    assert WellFormedNode(g, g[id]);
    ExplicitHolds(g, g[id].content, fuel - 1, q, name);
  }
}
