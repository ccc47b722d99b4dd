// What an operation on the configuration shows through Resolve: which contexts
// it can reach, and what they then see.
module ContextViews {
  import opened Basics
  import opened ContextConfig
  import opened ContextLaws

  // The tables agree on what context x refers to.
  ghost predicate SameView(c: Config, after: Config, x: string) {
    && ContextOf(c, x).Some? && ContextOf(after, x) == ContextOf(c, x)
    && (ContextOf(c, x).value.network != "" ==>
          NetworkOf(after, ContextOf(c, x).value.network) == NetworkOf(c, ContextOf(c, x).value.network))
    && KeyringOf(after, ContextOf(c, x).value.keyring) == KeyringOf(c, ContextOf(c, x).value.keyring)
  }

  lemma SameViewResolves(c: Config, after: Config, x: string)
    requires SameView(c, after, x) && x != ""
    ensures Resolve(after, x) == Resolve(c, x)
  {
  }

  lemma LookupEdited<T>(names: seq<string>, items: seq<T>, i: nat, item: T, x: string)
    requires |names| == |items| && i < |items| && Distinct(names)
    ensures Lookup(names, items[i := item], x) == if x == names[i] then Some(item) else Lookup(names, items, x)
  {
  }

  // The operation reaches context x of c: it names x, or edits what x refers to.
  ghost predicate Reaches(c: Config, op: Operation, x: string)
    requires ContextOf(c, x).Some?
  {
    var context := ContextOf(c, x).value;
    match op
    case UpdateNetwork(name, _) => context.network == name
    case UpdateKeyring(name, _) => context.keyring == name
    case UpdateContext(name, fork, contextEdit, networkEdit) =>
      || x == name
      || (networkEdit.Some? && fork == "" && ContextOf(c, name).Some?
          && context.network == Apply(contextEdit, ContextOf(c, name).value).value.network)
    case DeleteContext(name) => x == name
    case RenameContext(name, _) => x == name
    case _ => false
  }

  lemma NetworkEditedView(c: Config, i: nat, network: Network, x: string)
    requires Sound(c) && ContextOf(c, x).Some? && i < |c.networks| && network.name == c.networks[i].name
    requires ContextOf(c, x).value.network != network.name
    ensures SameView(c, c.(networks := c.networks[i := network]), x)
  {
    assert NetworkNames(c.networks[i := network]) == NetworkNames(c.networks);
    LookupEdited(NetworkNames(c.networks), c.networks, i, network, ContextOf(c, x).value.network);
  }

  lemma NetworkAddedView(c: Config, network: Network, x: string)
    requires Sound(c) && ContextOf(c, x).Some? && NetworkOf(c, network.name).None?
    ensures SameView(c, c.(networks := c.networks + [network]), x)
  {
    assert NetworkNames(c.networks + [network]) == NetworkNames(c.networks) + [network.name];
    assert ContextSound(c, ContextOf(c, x).value);
    LookupExtends(NetworkNames(c.networks), c.networks, network.name, network, ContextOf(c, x).value.network);
  }

  lemma NetworkDeletedView(c: Config, name: string, x: string)
    requires Sound(c) && ContextOf(c, x).Some?
    requires forall i :: 0 <= i < |c.contexts| ==> c.contexts[i].network != name
    ensures SameView(c, c.(networks := Without(NetworkNames(c.networks), c.networks, name)), x)
  {
    NetworksWithout(c.networks, name);
    LookupWithout(NetworkNames(c.networks), c.networks, name, ContextOf(c, x).value.network);
  }

  lemma KeyringEditedView(c: Config, i: nat, keyring: Keyring, x: string)
    requires Sound(c) && ContextOf(c, x).Some? && i < |c.keyrings| && keyring.name == c.keyrings[i].name
    requires ContextOf(c, x).value.keyring != keyring.name
    ensures SameView(c, c.(keyrings := c.keyrings[i := keyring]), x)
  {
    assert KeyringNames(c.keyrings[i := keyring]) == KeyringNames(c.keyrings);
    LookupEdited(KeyringNames(c.keyrings), c.keyrings, i, keyring, ContextOf(c, x).value.keyring);
  }

  lemma KeyringAddedView(c: Config, keyring: Keyring, x: string)
    requires Sound(c) && ContextOf(c, x).Some? && KeyringOf(c, keyring.name).None?
    ensures SameView(c, c.(keyrings := c.keyrings + [keyring]), x)
  {
    assert KeyringNames(c.keyrings + [keyring]) == KeyringNames(c.keyrings) + [keyring.name];
    assert ContextSound(c, ContextOf(c, x).value);
    LookupExtends(KeyringNames(c.keyrings), c.keyrings, keyring.name, keyring, ContextOf(c, x).value.keyring);
  }

  lemma ContextAddedView(c: Config, context: Context, x: string)
    requires ContextOf(c, x).Some?
    ensures SameView(c, c.(contexts := c.contexts + [context]), x)
  {
    assert ContextNames(c.contexts + [context]) == ContextNames(c.contexts) + [context.name];
    LookupExtends(ContextNames(c.contexts), c.contexts, context.name, context, x);
  }

  lemma ContextDeletedView(c: Config, name: string, x: string)
    requires ContextOf(c, x).Some? && x != name
    ensures SameView(c, c.(contexts := Without(ContextNames(c.contexts), c.contexts, name)), x)
  {
    ContextsWithout(c.contexts, name);
    LookupWithout(ContextNames(c.contexts), c.contexts, name, x);
  }

  // Writing the context at i, under its own or a free name, shows nothing to
  // the others.
  lemma ContextWrittenView(c: Config, i: nat, context: Context, x: string)
    requires Sound(c) && ContextOf(c, x).Some? && i < |c.contexts| && x != c.contexts[i].name
    requires context.name == c.contexts[i].name || ContextOf(c, context.name).None?
    ensures SameView(c, c.(contexts := c.contexts[i := context]), x)
  {
    var was := ContextNames(c.contexts);
    var names := ContextNames(c.contexts[i := context]);
    assert names == was[i := context.name];
    var j := Find(was, x);
    assert names[j] == x;
    assert Find(names, x) == j by {
      forall k | 0 <= k < j ensures names[k] != x {
        if k == i { assert was[j] == x; }
      }
    }
  }

  lemma ViewTransitive(a: Config, b: Config, c: Config, x: string)
    requires SameView(a, b, x) && SameView(b, c, x)
    ensures SameView(a, c, x)
  {
  }

  lemma ContextUpdateView(c: Config, op: Operation, x: string)
    requires Sound(c) && KeepsNames(op) && op.UpdateContext? && ContextOf(c, x).Some? && !Reaches(c, op, x)
    requires ContextUpdate(c, op.name, op.fork, op.contextEdit, op.networkEdit).Ok?
    ensures SameView(c, ContextUpdate(c, op.name, op.fork, op.contextEdit, op.networkEdit).value, x)
  {
    var at := Find(ContextNames(c.contexts), op.name);
    var edited := Apply(op.contextEdit, c.contexts[at]).value;
    var (context, networks) := NetworkUpdate(c, edited, op.fork, op.networkEdit).value;
    var base := c.(networks := networks);
    NetworkUpdateSound(c, edited, op.fork, op.networkEdit);
    NetworkUpdateView(c, edited, op.fork, op.networkEdit, x);
    var final := context.(providerAuthType := ResolveProviderAuthType(context.providerAuthType).value);
    ContextWrittenView(base, at, final, x);
    ViewTransitive(c, base, base.(contexts := base.contexts[at := final]), x);
  }

  lemma NetworkUpdateView(c: Config, context: Context, fork: string, networkEdit: Option<Edit<Network>>, x: string)
    requires Sound(c) && ContextOf(c, x).Some? && NetworkUpdate(c, context, fork, networkEdit).Ok?
    requires networkEdit.Some? ==> forall n :: networkEdit.value(n).value.name == n.name
    requires networkEdit.Some? && fork == "" ==> ContextOf(c, x).value.network != context.network
    ensures SameView(c, c.(networks := NetworkUpdate(c, context, fork, networkEdit).value.1), x)
  {
    if networkEdit.Some? {
      var i := Find(NetworkNames(c.networks), context.network);
      if fork == "" {
        NetworkEditedView(c, i, networkEdit.value(c.networks[i]).value, x);
      } else {
        NetworkAddedView(c, networkEdit.value(c.networks[i].(name := fork)).value, x);
      }
    }
  }

  // Every configuration an operation may leave in memory.
  ghost predicate LeftBy(c: Config, op: Operation, directories: bool, after: Config) {
    match Attempted(c, op, directories)
    case Refused(memory) => after == memory
    case Saving(saved, fallback) => after == saved || after == fallback
  }

  // A context an operation does not reach resolves as before: deleting a
  // network, forking one for another context, renaming or removing a neighbour
  // show nothing, whether or not the save succeeds.
  lemma UnreachedResolvesSame(c: Config, op: Operation, directories: bool, after: Config, x: string)
    requires Sound(c) && KeepsNames(op) && LeftBy(c, op, directories, after)
    requires ContextOf(c, x).Some? && !Reaches(c, op, x)
    ensures Resolve(after, x) == Resolve(c, x)
  {
    assert x != "" by { assert ContextSound(c, ContextOf(c, x).value); }
    if after != c { UnreachedSameView(c, op, directories, after, x); SameViewResolves(c, after, x); }
  }

  lemma UnreachedSameView(c: Config, op: Operation, directories: bool, after: Config, x: string)
    requires Sound(c) && KeepsNames(op) && LeftBy(c, op, directories, after) && after != c
    requires ContextOf(c, x).Some? && !Reaches(c, op, x)
    ensures SameView(c, after, x)
  {
    hide Sound, ContextUpdate, CompleteContext, Without;
    match op
    case CreateNetwork(network) => NetworkAddedView(c, network, x);
    case UpdateNetwork(name, edit) =>
      var i := Find(NetworkNames(c.networks), name);
      NetworkEditedView(c, i, edit(c.networks[i]).value, x);
    case ForkNetwork(src, forked) => NetworkAddedView(c, NetworkOf(c, src).value.(name := forked), x);
    case DeleteNetwork(name) => NetworkDeletedView(c, name, x);
    case CreateContext(context) => ContextAddedView(c, CompleteContext(c, context).value, x);
    case UseContext(name) =>
    case UpdateContext(_, _, _, _) => ContextUpdateView(c, op, x);
    case DeleteContext(name) => ContextDeletedView(c, name, x);
    case RenameContext(name, renamed) =>
      var i := Find(ContextNames(c.contexts), name);
      ContextWrittenView(c, i, c.contexts[i].(name := renamed), x);
    case CreateKeyring(keyring) =>
      KeyringAddedView(c, if keyring.backend == "" then keyring.(backend := "os") else keyring, x);
    case UpdateKeyring(name, edit) =>
      var i := Find(KeyringNames(c.keyrings), name);
      KeyringEditedView(c, i, edit(c.keyrings[i]).value, x);
  }

  // A renamed context resolves to what it was, under the new name.
  lemma RenamedResolves(c: Config, name: string, renamed: string)
    requires Sound(c) && renamed != "" && Attempted(c, RenameContext(name, renamed), true).Saving?
    ensures var after := Attempted(c, RenameContext(name, renamed), true).after;
            && Resolve(c, name).Ok? && Resolve(after, name).Err?
            && Resolve(after, renamed) == Ok(Resolve(c, name).value.(name := renamed))
  {
    var i := Find(ContextNames(c.contexts), name);
    var after := Attempted(c, RenameContext(name, renamed), true).after;
    ResolvesListed(c, name);
    assert ContextSound(c, c.contexts[i]);
    AttemptSound(c, RenameContext(name, renamed), true);
    assert ContextNames(after.contexts) == ContextNames(c.contexts)[i := renamed];
    FindUnique(ContextNames(after.contexts), i);
    ResolvesListed(after, name);
    assert name !in ContextNames(after.contexts) by {
      forall j | 0 <= j < |after.contexts| ensures ContextNames(after.contexts)[j] != name {
        if j != i { assert ContextNames(c.contexts)[j] != ContextNames(c.contexts)[i]; }
      }
    }
  }

  // A network edited under a fork's name is what the named context then sees,
  // and the network it was copied from is still there unchanged.
  lemma ForkResolves(c: Config, name: string, fork: string,
                     contextEdit: Option<Edit<Context>>, edit: Edit<Network>)
    requires Sound(c) && fork != "" && KeepsNames(UpdateContext(name, fork, contextEdit, Some(edit)))
    requires ContextUpdate(c, name, fork, contextEdit, Some(edit)).Ok?
    ensures var after := ContextUpdate(c, name, fork, contextEdit, Some(edit)).value;
            var source := Apply(contextEdit, ContextOf(c, name).value).value.network;
            && NetworkOf(c, source).Some? && NetworkOf(after, source) == NetworkOf(c, source)
            && Resolve(after, name).Ok?
            && Resolve(after, name).value.network == edit(NetworkOf(c, source).value.(name := fork)).value
  {
    var after := ContextUpdate(c, name, fork, contextEdit, Some(edit)).value;
    var at := Find(ContextNames(c.contexts), name);
    var edited := Apply(contextEdit, c.contexts[at]).value;
    var i := Find(NetworkNames(c.networks), edited.network);
    var copy := edit(c.networks[i].(name := fork)).value;
    ContextUpdateSound(c, name, fork, contextEdit, Some(edit));
    ForkTables(c, at, after.contexts[at], copy, name, edited.network);
    assert name != "" by { assert ContextSound(c, c.contexts[at]); }
    ResolvesListed(after, name);
  }

  lemma ForkTables(c: Config, at: nat, context: Context, copy: Network, name: string, source: string)
    requires Sound(c) && at < |c.contexts| && c.contexts[at].name == name == context.name
    requires NetworkOf(c, copy.name).None? && source in NetworkNames(c.networks)
    ensures var after := c.(contexts := c.contexts[at := context], networks := c.networks + [copy]);
            && name in ContextNames(after.contexts) && ContextOf(after, name) == Some(context)
            && NetworkOf(after, source) == NetworkOf(c, source)
            && NetworkOf(after, copy.name) == Some(copy)
  {
    var after := c.(contexts := c.contexts[at := context], networks := c.networks + [copy]);
    assert ContextNames(after.contexts) == ContextNames(c.contexts);
    FindUnique(ContextNames(c.contexts), at);
    assert ContextNames(after.contexts)[at] == name;
    assert NetworkNames(after.networks) == NetworkNames(c.networks) + [copy.name];
    LookupExtends(NetworkNames(c.networks), c.networks, copy.name, copy, source);
    LookupExtends(NetworkNames(c.networks), c.networks, copy.name, copy, copy.name);
  }

  // Renaming is not checked for an empty name: from any sound configuration it
  // leaves a listed context that no name resolves to.
  lemma RenamedToNothingIsLost(c: Config, name: string)
    requires Sound(c) && ContextOf(c, name).Some?
    ensures Attempted(c, RenameContext(name, ""), true).Saving?
    ensures var after := Attempted(c, RenameContext(name, ""), true).after;
            && "" in ContextNames(after.contexts) && !Sound(after)
            && forall x :: Resolve(after, x).Ok? ==> Resolve(after, x).value.name != ""
  {
    var names := ContextNames(c.contexts);
    var i := Find(names, name);
    assert "" !in names by {
      forall j | 0 <= j < |names| ensures names[j] != "" { assert ContextSound(c, c.contexts[j]); }
    }
    var after := Attempted(c, RenameContext(name, ""), true).after;
    assert ContextNames(after.contexts)[i] == "";
    assert !ContextSound(after, after.contexts[i]);
  }

  // ---- What an operation promises its caller ----

  // What success means, in terms of what is then found and resolved.
  ghost predicate Achieved(c: Config, op: Operation, after: Config) {
    match op
    case CreateNetwork(network) => NetworkOf(c, network.name).None? && NetworkOf(after, network.name) == Some(network)
    case UpdateNetwork(name, edit) =>
      NetworkOf(c, name).Some? && NetworkOf(after, name) == Some(edit(NetworkOf(c, name).value).value)
    case ForkNetwork(src, forked) =>
      && NetworkOf(c, src).Some? && NetworkOf(c, forked).None? && NetworkOf(after, src) == NetworkOf(c, src)
      && NetworkOf(after, forked) == Some(NetworkOf(c, src).value.(name := forked))
    case DeleteNetwork(name) => NetworkOf(after, name).None?
    case CreateContext(context) =>
      && Resolve(c, context.name).Err? && Resolve(after, context.name).Ok?
      && ResolveProviderAuthType(context.providerAuthType).Ok?
      && ContextOf(after, context.name) == Some(context.(
           keyring := if context.keyring == "" then "default" else context.keyring,
           gas := if context.gas == "" then "auto" else context.gas,
           providerAuthType := ResolveProviderAuthType(context.providerAuthType).value))
    case UseContext(name) => Resolve(c, name).Ok? && Resolve(after, "") == Resolve(c, name)
    case UpdateContext(name, fork, contextEdit, networkEdit) =>
      && Resolve(c, name).Ok? && Resolve(after, name).Ok? && ContextOf(c, name).Some?
      && var edited := Apply(contextEdit, ContextOf(c, name).value).value;
         && ResolveProviderAuthType(edited.providerAuthType).Ok?
         && ContextOf(after, name) == Some(edited.(
              network := if fork == "" then edited.network else fork,
              providerAuthType := ResolveProviderAuthType(edited.providerAuthType).value))
         && EditedNetworks(c, after, edited.network, fork, networkEdit)
    case DeleteContext(name) => Resolve(c, name).Ok? && Resolve(after, name).Err?
    case RenameContext(name, renamed) =>
      && Resolve(c, name).Ok? && Resolve(after, name).Err?
      && Resolve(after, renamed) == Ok(Resolve(c, name).value.(name := renamed))
    case CreateKeyring(keyring) =>
      && KeyringOf(c, keyring.name).None? && KeyringOf(after, keyring.name).Some?
      && KeyringOf(after, keyring.name).value == keyring.(backend := if keyring.backend == "" then "os"
         else keyring.backend)
    case UpdateKeyring(name, edit) =>
      KeyringOf(c, name).Some? && KeyringOf(after, name) == Some(edit(KeyringOf(c, name).value).value)
  }

  // A network edit changes the network in place, or adds an edited copy and
  // leaves the original.
  ghost predicate EditedNetworks(c: Config, after: Config, source: string, fork: string,
                                 networkEdit: Option<Edit<Network>>) {
    if networkEdit.None? then after.networks == c.networks
    else
      && NetworkOf(c, source).Some?
      && if fork == "" then NetworkOf(after, source) == Some(networkEdit.value(NetworkOf(c, source).value).value)
         else NetworkOf(c, fork).None? && NetworkOf(after, source) == NetworkOf(c, source)
              && NetworkOf(after, fork) == Some(networkEdit.value(NetworkOf(c, source).value.(name := fork)).value)
  }

  lemma NetworkUpdateEdits(c: Config, context: Context, fork: string, networkEdit: Option<Edit<Network>>)
    requires Sound(c) && NetworkUpdate(c, context, fork, networkEdit).Ok?
    requires networkEdit.Some? ==> forall n :: networkEdit.value(n).value.name == n.name
    ensures EditedNetworks(c, c.(networks := NetworkUpdate(c, context, fork, networkEdit).value.1), context.network,
            fork, networkEdit)
    ensures NetworkUpdate(c, context, fork, networkEdit).value.0
         == context.(network := if fork == "" then context.network else fork)
  {
    if networkEdit.Some? {
      var names := NetworkNames(c.networks);
      var i := Find(names, context.network);
      if fork == "" {
        var edited := networkEdit.value(c.networks[i]).value;
        assert NetworkNames(c.networks[i := edited]) == names;
        LookupEdited(names, c.networks, i, edited, context.network);
      } else {
        var added := networkEdit.value(c.networks[i].(name := fork)).value;
        NamesGrow(c, added, Keyring("", "", ""));
        LookupExtends(names, c.networks, fork, added, fork);
        LookupExtends(names, c.networks, fork, added, context.network);
      }
    }
  }

  // A sound configuration stays sound, contexts out of reach resolve as
  // before, and success achieves what was asked.
  ghost predicate Promised(c: Config, after: Config, op: Operation, ok: bool) {
    Sound(c) && KeepsNames(op) ==>
      && Sound(after)
      && (forall x :: ContextOf(c, x).Some? && !Reaches(c, op, x) ==> Resolve(after, x) == Resolve(c, x))
      && (ok ==> Achieved(c, op, after))
  }

  lemma NamesGrow(c: Config, network: Network, keyring: Keyring)
    ensures NetworkNames(c.networks + [network]) == NetworkNames(c.networks) + [network.name]
    ensures KeyringNames(c.keyrings + [keyring]) == KeyringNames(c.keyrings) + [keyring.name]
  {
  }

  lemma AchievedNetworks(c: Config, op: Operation, directories: bool)
    requires Sound(c) && KeepsNames(op) && Attempted(c, op, directories).Saving?
    requires op.CreateNetwork? || op.UpdateNetwork? || op.ForkNetwork? || op.DeleteNetwork?
    ensures Achieved(c, op, Attempted(c, op, directories).after)
  {
    var names := NetworkNames(c.networks);
    match op
    case CreateNetwork(network) =>
      NamesGrow(c, network, Keyring("", "", ""));
      LookupExtends(names, c.networks, network.name, network, network.name);
    case UpdateNetwork(name, edit) =>
      var i := Find(names, name);
      var edited := edit(c.networks[i]).value;
      assert NetworkNames(c.networks[i := edited]) == names;
      LookupEdited(names, c.networks, i, edited, name);
    case ForkNetwork(src, forked) =>
      var fork := NetworkOf(c, src).value.(name := forked);
      NamesGrow(c, fork, Keyring("", "", ""));
      LookupExtends(names, c.networks, forked, fork, forked);
      LookupExtends(names, c.networks, forked, fork, src);
    case DeleteNetwork(name) =>
      NetworksWithout(c.networks, name);
      WithoutNames(names, c.networks, name);
      var after := Attempted(c, op, directories).after;
      assert NetworkNames(after.networks) == Without(names, names, name);
      assert name !in NetworkNames(after.networks);
  }

  lemma AchievedKeyrings(c: Config, op: Operation, directories: bool)
    requires Sound(c) && KeepsNames(op) && Attempted(c, op, directories).Saving? && (op.CreateKeyring?
             || op.UpdateKeyring?)
    ensures Achieved(c, op, Attempted(c, op, directories).after)
  {
    var names := KeyringNames(c.keyrings);
    match op
    case CreateKeyring(keyring) =>
      var complete := if keyring.backend == "" then keyring.(backend := "os") else keyring;
      NamesGrow(c, NoNetwork, complete);
      LookupExtends(names, c.keyrings, complete.name, complete, complete.name);
    case UpdateKeyring(name, edit) =>
      var i := Find(names, name);
      var edited := edit(c.keyrings[i]).value;
      assert KeyringNames(c.keyrings[i := edited]) == names;
      LookupEdited(names, c.keyrings, i, edited, name);
  }

  lemma AchievedContexts(c: Config, op: Operation, directories: bool)
    requires Sound(c) && KeepsNames(op) && Attempted(c, op, directories).Saving?
    requires op.UseContext? || op.DeleteContext? || op.RenameContext?
    ensures Achieved(c, op, Attempted(c, op, directories).after)
  {
    var after := Attempted(c, op, directories).after;
    AttemptSound(c, op, directories);
    match op
    case UseContext(name) =>
      ListedByName(c, name);
      ResolvesListed(c, name);
      UsedResolves(c, name);
    case DeleteContext(name) =>
      ListedByName(c, name);
      ResolvesListed(c, name);
      ResolvesListed(after, name);
      ContextsWithout(c.contexts, name);
      WithoutNames(ContextNames(c.contexts), c.contexts, name);
    case RenameContext(name, renamed) => RenamedResolves(c, name, renamed);
  }

  lemma ListedByName(c: Config, name: string)
    requires Sound(c) && ContextOf(c, name).Some?
    ensures name != "" && name in ContextNames(c.contexts)
  {
    var i := Find(ContextNames(c.contexts), name);
    assert ContextSound(c, c.contexts[i]);
  }

  lemma UsedResolves(c: Config, name: string)
    requires name != ""
    ensures Resolve(c.(currentContext := name), "") == Resolve(c, name)
  {
  }

  lemma AchievedCreation(c: Config, context: Context)
    requires Sound(c) && Attempted(c, CreateContext(context), true).Saving?
    ensures Achieved(c, CreateContext(context), Attempted(c, CreateContext(context), true).after)
  {
    var after := Attempted(c, CreateContext(context), true).after;
    AttemptSound(c, CreateContext(context), true);
    CompleteSound(c, context);
    var complete := CompleteContext(c, context).value;
    hide CompleteContext, Sound;
    assert ContextNames(after.contexts) == ContextNames(c.contexts) + [complete.name];
    assert ContextNames(after.contexts)[|c.contexts|] == complete.name;
    ResolvesListed(after, complete.name);
    ResolvesListed(c, complete.name);
    LookupExtends(ContextNames(c.contexts), c.contexts, complete.name, complete, complete.name);
    CompleteIs(c, context);
  }

  lemma CompleteIs(c: Config, context: Context)
    requires CompleteContext(c, context).Ok?
    ensures ResolveProviderAuthType(context.providerAuthType).Ok?
    ensures CompleteContext(c, context).value == context.(
              keyring := if context.keyring == "" then "default" else context.keyring,
              gas := if context.gas == "" then "auto" else context.gas,
              providerAuthType := ResolveProviderAuthType(context.providerAuthType).value)
  {
  }

  lemma AchievedUpdate(c: Config, op: Operation)
    requires Sound(c) && KeepsNames(op) && op.UpdateContext? && Attempted(c, op, true).Saving?
    ensures Achieved(c, op, Attempted(c, op, true).after)
  {
    var after := Attempted(c, op, true).after;
    AttemptSound(c, op, true);
    UpdateWrites(c, op);
    ListedByName(c, op.name);
    hide ContextUpdate, Sound, EditedNetworks;
    ResolvesListed(c, op.name);
    ResolvesListed(after, op.name);
  }

  lemma UpdateWrites(c: Config, op: Operation)
    requires Sound(c) && KeepsNames(op) && op.UpdateContext?
    requires ContextUpdate(c, op.name, op.fork, op.contextEdit, op.networkEdit).Ok?
    ensures ContextOf(c, op.name).Some?
    ensures var after := ContextUpdate(c, op.name, op.fork, op.contextEdit, op.networkEdit).value;
            var edited := Apply(op.contextEdit, ContextOf(c, op.name).value).value;
            && ContextNames(after.contexts) == ContextNames(c.contexts)
            && ResolveProviderAuthType(edited.providerAuthType).Ok?
            && ContextOf(after, op.name) == Some(edited.(
                 network := if op.fork == "" then edited.network else op.fork,
                 providerAuthType := ResolveProviderAuthType(edited.providerAuthType).value))
            && EditedNetworks(c, after, edited.network, op.fork, op.networkEdit)
  {
    var at := Find(ContextNames(c.contexts), op.name);
    var edited := Apply(op.contextEdit, c.contexts[at]).value;
    NetworkUpdateEdits(c, edited, op.fork, op.networkEdit);
    var after := ContextUpdate(c, op.name, op.fork, op.contextEdit, op.networkEdit).value;
    hide EditedNetworks, NetworkUpdate;
    assert ContextNames(after.contexts) == ContextNames(c.contexts);
    LookupEdited(ContextNames(c.contexts), c.contexts, at, after.contexts[at], op.name);
    SameNetworks(c, after, edited.network, op.fork, op.networkEdit);
  }

  lemma SameNetworks(c: Config, after: Config, source: string, fork: string, networkEdit: Option<Edit<Network>>)
    requires EditedNetworks(c, c.(networks := after.networks), source, fork, networkEdit)
    ensures EditedNetworks(c, after, source, fork, networkEdit)
  {
  }

  lemma AttemptAchieves(c: Config, op: Operation, directories: bool)
    requires Sound(c) && KeepsNames(op) && Attempted(c, op, directories).Saving?
    ensures Achieved(c, op, Attempted(c, op, directories).after)
  {
    hide Sound, Achieved, KeepsNames;
    match op
    case CreateContext(context) => AchievedCreation(c, context);
    case UpdateContext(_, _, _, _) => AchievedUpdate(c, op);
    case CreateNetwork(_) => AchievedNetworks(c, op, directories);
    case UpdateNetwork(_, _) => AchievedNetworks(c, op, directories);
    case ForkNetwork(_, _) => AchievedNetworks(c, op, directories);
    case DeleteNetwork(_) => AchievedNetworks(c, op, directories);
    case CreateKeyring(_) => AchievedKeyrings(c, op, directories);
    case UpdateKeyring(_, _) => AchievedKeyrings(c, op, directories);
    case UseContext(_) => AchievedContexts(c, op, directories);
    case DeleteContext(_) => AchievedContexts(c, op, directories);
    case RenameContext(_, _) => AchievedContexts(c, op, directories);
  }

  // Every configuration an operation may leave keeps its promises.
  lemma AttemptPromised(c: Config, op: Operation, directories: bool)
    ensures match Attempted(c, op, directories)
            case Refused(memory) => Promised(c, memory, op, false)
            case Saving(after, fallback) => Promised(c, after, op, true) && Promised(c, fallback, op, false)
  {
    if Sound(c) && KeepsNames(op) {
      AttemptSound(c, op, directories);
      hide Sound, KeepsNames, Achieved, Attempted, Reaches, Resolve;
      forall after, x | LeftBy(c, op, directories, after) && ContextOf(c, x).Some? && !Reaches(c, op, x)
        ensures Resolve(after, x) == Resolve(c, x)
      {
        UnreachedResolvesSame(c, op, directories, after, x);
      }
      if Attempted(c, op, directories).Saving? { AttemptAchieves(c, op, directories); }
    }
  }

  // Whether an operation, given how its directory work and save go, succeeds.
  predicate Succeeds(c: Config, op: Operation, directories: bool, saves: bool) {
    Attempted(c, op, directories).Saving? && saves
  }

  // What a call delivers, in memory and in the file: success is saved and
  // failure leaves the file alone, the promises hold of memory, and a sound
  // manager stays sound in both.
  ghost predicate Delivers(before: State, after: State, op: Operation, ok: bool) {
    && after.file == (if ok then after.memory else before.file)
    && Promised(before.memory, after.memory, op, ok)
    && (Sound(before.memory) && Sound(before.file) && KeepsNames(op) ==> Sound(after.memory) && Sound(after.file))
  }

  lemma StepDelivers(s: State, op: Operation, directories: bool, saves: bool)
    ensures Delivers(s, Step(s, Perform(op, directories, saves)), op, Succeeds(s.memory, op, directories, saves))
  {
    AttemptPromised(s.memory, op, directories);
    hide Attempted, Sound, KeepsNames, Achieved, Reaches, Resolve;
  }
}
