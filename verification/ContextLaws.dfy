// What every manager operation keeps: references lead somewhere, failed
// updates change nothing, and other contexts resolve as before.
module ContextLaws {
  import opened Basics
  import opened ContextConfig

  // ---- Tables ----

  lemma FindUnique(names: seq<string>, i: nat)
    requires Distinct(names) && i < |names|
    ensures Find(names, names[i]) == i
  {
  }

  lemma {:induction false} FindExtends(names: seq<string>, added: string, x: string)
    ensures Find(names + [added], x) == if x in names then Find(names, x)
                                        else if x == added then |names| else |names| + 1
  {
    var extended := names + [added];
    var i := Find(extended, x);
    if x in names {
      assert extended[Find(names, x)] == x;
    } else if x == added {
      assert extended[|names|] == x;
    }
  }

  lemma LookupExtends<T>(names: seq<string>, items: seq<T>, added: string, item: T, x: string)
    requires |names| == |items|
    ensures Lookup(names + [added], items + [item], x) ==
            if x in names then Lookup(names, items, x) else if x == added then Some(item) else None
  {
    FindExtends(names, added, x);
  }

  lemma {:induction false} WithoutNames<T>(names: seq<string>, items: seq<T>, name: string)
    requires |names| == |items|
    ensures |Without(names, items, name)| == |Without(names, names, name)|
    ensures forall x :: x in Without(names, names, name) <==> x in names && x != name
    ensures Distinct(names) ==> Distinct(Without(names, names, name))
    decreases |names|
  {
    if names != [] {
      WithoutNames(names[1..], items[1..], name);
      assert names == [names[0]] + names[1..];
      if Distinct(names) {
        assert names[0] !in names[1..];
        assert names[0] !in Without(names[1..], names[1..], name);
      }
    }
  }

  lemma {:induction false} LookupWithout<T>(names: seq<string>, items: seq<T>, name: string, x: string)
    requires |names| == |items| && x != name
    ensures |Without(names, items, name)| == |Without(names, names, name)|
    ensures Lookup(Without(names, names, name), Without(names, items, name), x) == Lookup(names, items, x)
    decreases |names|
  {
    if names != [] {
      LookupWithout(names[1..], items[1..], name, x);
      hide Lookup;
      var restNames, rest := Without(names[1..], names[1..], name), Without(names[1..], items[1..], name);
      LookupStep(names[0], items[0], names[1..], items[1..], x);
      LookupStep(names[0], items[0], restNames, rest, x);
      assert names == [names[0]] + names[1..] && items == [items[0]] + items[1..];
      if names[0] == name { assert [] + restNames == restNames && [] + rest == rest; }
    }
  }

  lemma LookupStep<T>(name: string, item: T, names: seq<string>, items: seq<T>, x: string)
    requires |names| == |items|
    ensures Lookup([name] + names, [item] + items, x) == if name == x then Some(item) else Lookup(names, items, x)
  {
    assert ([name] + names)[1..] == names;
  }

  lemma {:induction false} NetworksWithout(s: seq<Network>, name: string)
    ensures NetworkNames(Without(NetworkNames(s), s, name)) == Without(NetworkNames(s), NetworkNames(s), name)
  {
    if s != [] {
      assert NetworkNames(s)[1..] == NetworkNames(s[1..]);
      NetworksWithout(s[1..], name);
    }
  }

  lemma {:induction false} ContextsWithout(s: seq<Context>, name: string)
    ensures ContextNames(Without(ContextNames(s), s, name)) == Without(ContextNames(s), ContextNames(s), name)
  {
    if s != [] {
      assert ContextNames(s)[1..] == ContextNames(s[1..]);
      ContextsWithout(s[1..], name);
    }
  }

  // What is left was there.
  lemma {:induction false} WithoutFrom(s: seq<Context>, name: string)
    ensures forall x :: x in Without(ContextNames(s), s, name) ==> x in s
  {
    if s != [] {
      assert ContextNames(s)[1..] == ContextNames(s[1..]);
      WithoutFrom(s[1..], name);
    }
  }

  // ---- Soundness ----

  // Contexts stay as they were and no network or keyring name they use goes.
  lemma TablesChange(c: Config, after: Config)
    requires Sound(c) && after.contexts == c.contexts && after.currentContext == c.currentContext
    requires Distinct(NetworkNames(after.networks)) && Distinct(KeyringNames(after.keyrings))
    requires forall i :: 0 <= i < |c.contexts| && c.contexts[i].network in NetworkNames(c.networks) ==>
                           c.contexts[i].network in NetworkNames(after.networks)
    requires forall x :: x in KeyringNames(c.keyrings) ==> x in KeyringNames(after.keyrings)
    ensures Sound(after)
  {
    forall i | 0 <= i < |after.contexts| ensures ContextSound(after, after.contexts[i]) {
      assert ContextSound(c, c.contexts[i]);
    }
  }

  lemma NetworkAddedSound(c: Config, network: Network)
    requires Sound(c) && NetworkOf(c, network.name).None?
    ensures Sound(c.(networks := c.networks + [network]))
  {
    assert NetworkNames(c.networks + [network]) == NetworkNames(c.networks) + [network.name];
    TablesChange(c, c.(networks := c.networks + [network]));
  }

  lemma NetworkEditedSound(c: Config, i: nat, network: Network)
    requires Sound(c) && i < |c.networks| && network.name == c.networks[i].name
    ensures NetworkNames(c.networks[i := network]) == NetworkNames(c.networks)
    ensures Sound(c.(networks := c.networks[i := network]))
  {
    assert NetworkNames(c.networks[i := network]) == NetworkNames(c.networks);
    TablesChange(c, c.(networks := c.networks[i := network]));
  }

  lemma NetworkDeletedSound(c: Config, name: string)
    requires Sound(c) && forall i :: 0 <= i < |c.contexts| ==> c.contexts[i].network != name
    ensures Sound(c.(networks := Without(NetworkNames(c.networks), c.networks, name)))
  {
    NetworksWithout(c.networks, name);
    WithoutNames(NetworkNames(c.networks), c.networks, name);
    TablesChange(c, c.(networks := Without(NetworkNames(c.networks), c.networks, name)));
  }

  lemma KeyringAddedSound(c: Config, keyring: Keyring)
    requires Sound(c) && KeyringOf(c, keyring.name).None?
    ensures Sound(c.(keyrings := c.keyrings + [keyring]))
  {
    assert KeyringNames(c.keyrings + [keyring]) == KeyringNames(c.keyrings) + [keyring.name];
    TablesChange(c, c.(keyrings := c.keyrings + [keyring]));
  }

  lemma KeyringEditedSound(c: Config, i: nat, keyring: Keyring)
    requires Sound(c) && i < |c.keyrings| && keyring.name == c.keyrings[i].name
    ensures Sound(c.(keyrings := c.keyrings[i := keyring]))
  {
    assert KeyringNames(c.keyrings[i := keyring]) == KeyringNames(c.keyrings);
    TablesChange(c, c.(keyrings := c.keyrings[i := keyring]));
  }

  // A context that came out of the checks of CreateContext is sound.
  lemma CompleteSound(c: Config, context: Context)
    requires CompleteContext(c, context).Ok?
    ensures var complete := CompleteContext(c, context).value;
            ContextSound(c, complete) && complete.name == context.name && ContextOf(c, complete.name).None?
  {
  }

  lemma ContextAddedSound(c: Config, context: Context)
    requires Sound(c) && ContextSound(c, context) && ContextOf(c, context.name).None?
    ensures Sound(c.(contexts := c.contexts + [context]))
  {
    var after := c.(contexts := c.contexts + [context]);
    assert ContextNames(after.contexts) == ContextNames(c.contexts) + [context.name];
    forall i | 0 <= i < |after.contexts| ensures ContextSound(after, after.contexts[i]) {
      if i < |c.contexts| { assert ContextSound(c, c.contexts[i]); }
    }
  }

  lemma ContextEditedSound(c: Config, i: nat, context: Context)
    requires Sound(c) && ContextSound(c, context) && i < |c.contexts| && context.name == c.contexts[i].name
    ensures Sound(c.(contexts := c.contexts[i := context]))
  {
    var after := c.(contexts := c.contexts[i := context]);
    assert ContextNames(after.contexts) == ContextNames(c.contexts);
    forall j | 0 <= j < |after.contexts| ensures ContextSound(after, after.contexts[j]) {
      if j != i { assert ContextSound(c, c.contexts[j]); }
    }
  }

  lemma ContextDeletedSound(c: Config, name: string)
    requires Sound(c) && c.currentContext != name
    ensures Sound(c.(contexts := Without(ContextNames(c.contexts), c.contexts, name)))
  {
    var after := c.(contexts := Without(ContextNames(c.contexts), c.contexts, name));
    ContextsWithout(c.contexts, name);
    WithoutNames(ContextNames(c.contexts), c.contexts, name);
    WithoutFrom(c.contexts, name);
    forall i | 0 <= i < |after.contexts| ensures ContextSound(after, after.contexts[i]) {
      assert after.contexts[i] in c.contexts;
      var j :| 0 <= j < |c.contexts| && c.contexts[j] == after.contexts[i];
      assert ContextSound(c, c.contexts[j]);
    }
  }

  lemma ContextRenamedSound(c: Config, i: nat, renamed: string)
    requires Sound(c) && i < |c.contexts| && renamed != "" && ContextOf(c, renamed).None?
    ensures Sound(c.(contexts := c.contexts[i := c.contexts[i].(name := renamed)],
                     currentContext := if c.currentContext == c.contexts[i].name then renamed else c.currentContext))
  {
    var was := ContextNames(c.contexts);
    var after := c.(contexts := c.contexts[i := c.contexts[i].(name := renamed)],
                    currentContext := if c.currentContext == c.contexts[i].name then renamed else c.currentContext);
    var names := ContextNames(after.contexts);
    assert names == was[i := renamed];
    assert renamed !in was;
    forall j | 0 <= j < |after.contexts| ensures ContextSound(after, after.contexts[j]) {
      assert ContextSound(c, c.contexts[j]);
    }
    assert names[i] == renamed;
    if c.currentContext != c.contexts[i].name && c.currentContext != "" {
      var j :| 0 <= j < |was| && was[j] == c.currentContext;
      assert names[j] == c.currentContext;
    }
  }

  // The network half of an update leaves a sound configuration in which the
  // context's reference leads to the network edited.
  lemma NetworkUpdateSound(c: Config, context: Context, fork: string, networkEdit: Option<Edit<Network>>)
    requires Sound(c) && NetworkUpdate(c, context, fork, networkEdit).Ok?
    requires networkEdit.Some? ==> forall n :: networkEdit.value(n).value.name == n.name
    ensures var linked := NetworkUpdate(c, context, fork, networkEdit).value;
            && Sound(c.(networks := linked.1))
            && linked.0 == context.(network := linked.0.network)
            && (fork != "" ==> linked.0.network in NetworkNames(linked.1))
            && (fork == "" ==> linked.0 == context && NetworkNames(linked.1) == NetworkNames(c.networks))
  {
    if networkEdit.Some? {
      var edit := networkEdit.value;
      var i := Find(NetworkNames(c.networks), context.network);
      if fork == "" {
        NetworkEditedSound(c, i, edit(c.networks[i]).value);
      } else {
        var added := edit(c.networks[i].(name := fork)).value;
        NetworkAddedSound(c, added);
        assert NetworkNames(c.networks + [added])[|c.networks|] == fork;
      }
    }
  }

  lemma ContextUpdateSound(c: Config, name: string, fork: string,
                           contextEdit: Option<Edit<Context>>, networkEdit: Option<Edit<Network>>)
    requires Sound(c) && KeepsNames(UpdateContext(name, fork, contextEdit, networkEdit))
    requires ContextUpdate(c, name, fork, contextEdit, networkEdit).Ok?
    ensures Sound(ContextUpdate(c, name, fork, contextEdit, networkEdit).value)
  {
    var at := Find(ContextNames(c.contexts), name);
    var edited := Apply(contextEdit, c.contexts[at]).value;
    assert edited.name == c.contexts[at].name;
    assert ContextSound(c, c.contexts[at]);
    NetworkUpdateSound(c, edited, fork, networkEdit);
    var (context, networks) := NetworkUpdate(c, edited, fork, networkEdit).value;
    var base := c.(networks := networks);
    var final := context.(providerAuthType := ResolveProviderAuthType(context.providerAuthType).value);
    ContextEditedSound(base, at, final);
  }

  // Every operation keeps the invariant, in memory and in what it saves.
  lemma AttemptSound(c: Config, op: Operation, directories: bool)
    requires Sound(c) && KeepsNames(op)
    ensures match Attempted(c, op, directories)
            case Refused(memory) => Sound(memory)
            case Saving(after, fallback) => Sound(after) && Sound(fallback)
  {
    hide Sound, ContextUpdate, CompleteContext, Without;
    match op
    case CreateNetwork(network) =>
      if NetworkOf(c, network.name).None? { NetworkAddedSound(c, network); }
    case UpdateNetwork(name, edit) =>
      var i := Find(NetworkNames(c.networks), name);
      if i < |c.networks| { NetworkEditedSound(c, i, edit(c.networks[i]).value); }
    case ForkNetwork(src, forked) =>
      if NetworkOf(c, src).Some? && NetworkOf(c, forked).None? {
        NetworkAddedSound(c, NetworkOf(c, src).value.(name := forked));
      }
    case DeleteNetwork(name) =>
      if forall i :: 0 <= i < |c.contexts| ==> c.contexts[i].network != name { NetworkDeletedSound(c, name); }
    case CreateContext(context) =>
      if CompleteContext(c, context).Ok? {
        CompleteSound(c, context);
        ContextAddedSound(c, CompleteContext(c, context).value);
      }
    case UseContext(name) =>
      if ContextOf(c, name).Some? { UsedSound(c, name); }
    case UpdateContext(name, fork, contextEdit, networkEdit) =>
      if ContextUpdate(c, name, fork, contextEdit, networkEdit).Ok? {
        ContextUpdateSound(c, name, fork, contextEdit, networkEdit);
      }
    case DeleteContext(name) =>
      if c.currentContext != name { ContextDeletedSound(c, name); }
    case RenameContext(name, renamed) =>
      var i := Find(ContextNames(c.contexts), name);
      if i < |c.contexts| && ContextOf(c, renamed).None? { ContextRenamedSound(c, i, renamed); }
    case CreateKeyring(keyring) =>
      if KeyringOf(c, keyring.name).None? {
        KeyringAddedSound(c, if keyring.backend == "" then keyring.(backend := "os") else keyring);
      }
    case UpdateKeyring(name, edit) =>
      var i := Find(KeyringNames(c.keyrings), name);
      if i < |c.keyrings| { KeyringEditedSound(c, i, edit(c.keyrings[i]).value); }
  }

  lemma UsedSound(c: Config, name: string)
    requires Sound(c) && ContextOf(c, name).Some?
    ensures Sound(c.(currentContext := name))
  {
    var after := c.(currentContext := name);
    assert ContextNames(c.contexts)[Find(ContextNames(c.contexts), name)] == name;
    forall i | 0 <= i < |after.contexts| ensures ContextSound(after, after.contexts[i]) {
      assert ContextSound(c, c.contexts[i]);
    }
  }

  // Over any run of operations and reloads, whatever saves fail.
  lemma {:induction false} RunSound(s: State, events: seq<Event>)
    requires Sound(s.memory) && Sound(s.file)
    requires forall i :: 0 <= i < |events| && events[i].Perform? ==> KeepsNames(events[i].op)
    ensures Sound(Run(s, events).memory) && Sound(Run(s, events).file)
    decreases |events|
  {
    if events != [] {
      var e := events[0];
      if e.Perform? { AttemptSound(s.memory, e.op, e.directories); }
      RunSound(Step(s, e), events[1..]);
    }
  }

  lemma ListedIsNamed(c: Config, name: string)
    requires Sound(c) && name in ContextNames(c.contexts)
    ensures name != ""
  {
    var i :| 0 <= i < |c.contexts| && ContextNames(c.contexts)[i] == name;
    assert ContextSound(c, c.contexts[i]);
  }

  // In a sound configuration exactly the listed contexts resolve, and the
  // unnamed one does when a current context is set.
  lemma ResolvesListed(c: Config, name: string)
    requires Sound(c)
    ensures Resolve(c, name).Ok? <==>
            if name == "" then c.currentContext != "" else name in ContextNames(c.contexts)
    ensures Resolve(c, name).Ok? ==>
              Resolve(c, name).value.name == if name == "" then c.currentContext else name
  {
    var wanted := if name == "" then c.currentContext else name;
    var i := Find(ContextNames(c.contexts), wanted);
    if i < |c.contexts| { assert ContextSound(c, c.contexts[i]); }
  }

  // A context can be created exactly when its name is new, its references lead
  // somewhere, a Console context alone goes without a network, and its two
  // methods of authentication are known; blanks become defaults.
  lemma CreatableExactly(c: Config, context: Context)
    ensures CompleteContext(c, context).Ok? <==>
              && context.name != "" && context.name !in ContextNames(c.contexts)
              && (if context.network == "" then context.authMethod == "console-api"
                  else context.network in NetworkNames(c.networks))
              && (if context.keyring == "" then "default" else context.keyring) in KeyringNames(c.keyrings)
              && context.providerAuthType in ["", "jwt", "mtls"]
              && context.authMethod in ["", "keyring", "console-api"]
    ensures CompleteContext(c, context).Ok? ==>
              CompleteContext(c, context).value == context.(
                keyring := if context.keyring == "" then "default" else context.keyring,
                providerAuthType := if context.providerAuthType == "" then "jwt" else context.providerAuthType,
                gas := if context.gas == "" then "auto" else context.gas)
  {
    FindListed(ContextNames(c.contexts), context.name);
    FindListed(NetworkNames(c.networks), context.network);
    FindListed(KeyringNames(c.keyrings), if context.keyring == "" then "default" else context.keyring);
    hide Find;
  }

  lemma FindListed(names: seq<string>, name: string)
    ensures Find(names, name) < |names| <==> name in names
  {
  }

  // What a context resolves to, field by field from the three tables.
  lemma ResolvedFromTables(c: Config, name: string, x: nat)
    requires Sound(c) && x < |c.contexts|
    requires c.contexts[x].name == if name == "" then c.currentContext else name
    ensures Resolve(c, name).Ok?
    ensures var r, context := Resolve(c, name).value, c.contexts[x];
            && r.name == context.name && r.defaultAccount == context.defaultAccount
            && r.trackedAccounts == context.trackedAccounts && r.gas == context.gas && r.fees == context.fees
            && r.authMethod == (if context.authMethod == "" then "keyring" else context.authMethod)
            && r.consoleApiUrl == (if context.consoleApiUrl == "" then "https://console-api.akash.network"
                                   else context.consoleApiUrl)
            && r.authType == (if context.providerAuthType == "" then "jwt" else context.providerAuthType)
            && (forall k :: 0 <= k < |c.keyrings| && c.keyrings[k].name == context.keyring ==>
                  r.keyring == c.keyrings[k])
            && (context.network == "" ==>
                  && r.network == Network("", "", [], [], [], "", "", "")
                  && r.gasPrices == "" && r.gasAdjustment == "")
            && (forall n :: 0 <= n < |c.networks| && context.network != "" && c.networks[n].name == context.network ==>
                  && r.network == c.networks[n]
                  && r.gasPrices == c.networks[n].gasPrices && r.gasAdjustment == c.networks[n].gasAdjustment)
  {
    var context := c.contexts[x];
    assert ContextSound(c, context);
    FindUnique(ContextNames(c.contexts), x);
    forall n | 0 <= n < |c.networks| && c.networks[n].name == context.network
      ensures NetworkOf(c, context.network) == Some(c.networks[n])
    {
      FindUnique(NetworkNames(c.networks), n);
    }
    forall k | 0 <= k < |c.keyrings| && c.keyrings[k].name == context.keyring
      ensures KeyringOf(c, context.keyring) == Some(c.keyrings[k])
    {
      FindUnique(KeyringNames(c.keyrings), k);
    }
  }
}
