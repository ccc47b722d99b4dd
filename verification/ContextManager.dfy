// The manager that holds the configuration in memory and saves it
// (internal/context/manager.go).
module ContextManager {
  import opened Basics
  import opened ContextConfig
  import opened ContextLaws
  import opened ContextViews

  class Manager {
    var cfg: Config
    var file: Config

    constructor (loaded: Config)
      ensures State() == ContextConfig.State(loaded, loaded)
    {
      cfg, file := loaded, loaded;
    }

    ghost function State(): State
      reads this
    {
      ContextConfig.State(cfg, file)
    }

    method Save(saves: bool) returns (ok: bool)
      modifies this`file
      ensures ok == saves && file == if saves then cfg else old(file)
    {
      if saves { file := cfg; }
      return saves;
    }

    method IndexOfNetwork(name: string) returns (i: nat)
      ensures i == Find(NetworkNames(cfg.networks), name)
    {
      i := 0;
      while i < |cfg.networks| && cfg.networks[i].name != name
        invariant i <= |cfg.networks| && forall j :: 0 <= j < i ==> NetworkNames(cfg.networks)[j] != name
      {
        i := i + 1;
      }
      assert i < |cfg.networks| ==> NetworkNames(cfg.networks)[i] == name;
    }

    method IndexOfKeyring(name: string) returns (i: nat)
      ensures i == Find(KeyringNames(cfg.keyrings), name)
    {
      i := 0;
      while i < |cfg.keyrings| && cfg.keyrings[i].name != name
        invariant i <= |cfg.keyrings| && forall j :: 0 <= j < i ==> KeyringNames(cfg.keyrings)[j] != name
      {
        i := i + 1;
      }
      assert i < |cfg.keyrings| ==> KeyringNames(cfg.keyrings)[i] == name;
    }

    method IndexOfContext(name: string) returns (i: nat)
      ensures i == Find(ContextNames(cfg.contexts), name)
    {
      i := 0;
      while i < |cfg.contexts| && cfg.contexts[i].name != name
        invariant i <= |cfg.contexts| && forall j :: 0 <= j < i ==> ContextNames(cfg.contexts)[j] != name
      {
        i := i + 1;
      }
      assert i < |cfg.contexts| ==> ContextNames(cfg.contexts)[i] == name;
    }

    // The names of the contexts that refer to a network.
    method NetworkUsers(name: string) returns (users: seq<string>)
      ensures users != [] <==> exists i :: 0 <= i < |cfg.contexts| && cfg.contexts[i].network == name
      ensures forall u :: u in users <==>
                exists i :: 0 <= i < |cfg.contexts| && cfg.contexts[i].network == name && cfg.contexts[i].name == u
    {
      users := [];
      for k := 0 to |cfg.contexts|
        invariant users != [] <==> exists i :: 0 <= i < k && cfg.contexts[i].network == name
        invariant forall u :: u in users <==>
                    exists i :: 0 <= i < k && cfg.contexts[i].network == name && cfg.contexts[i].name == u
      {
        if cfg.contexts[k].network == name { users := users + [cfg.contexts[k].name]; }
      }
    }

    method CreateNetwork(network: Network, saves: bool) returns (ok: bool)
      modifies this
      ensures State() == Step(old(State()), Perform(Operation.CreateNetwork(network), true, saves))
      ensures ok == Succeeds(old(cfg), Operation.CreateNetwork(network), true, saves)
      ensures Delivers(old(State()), State(), Operation.CreateNetwork(network), ok)
    {
      StepDelivers(State(), Operation.CreateNetwork(network), true, saves);
      hide Delivers;
      if network.name == "" { return false; }
      var i := IndexOfNetwork(network.name);
      if i < |cfg.networks| { return false; }
      cfg := cfg.(networks := cfg.networks + [network]);
      ok := Save(saves);
    }

    method UpdateNetwork(name: string, apply: Edit<Network>, saves: bool) returns (ok: bool)
      modifies this
      ensures State() == Step(old(State()), Perform(Operation.UpdateNetwork(name, apply), true, saves))
      ensures ok == Succeeds(old(cfg), Operation.UpdateNetwork(name, apply), true, saves)
      ensures Delivers(old(State()), State(), Operation.UpdateNetwork(name, apply), ok)
    {
      StepDelivers(State(), Operation.UpdateNetwork(name, apply), true, saves);
      hide Delivers;
      var i := IndexOfNetwork(name);
      if i == |cfg.networks| { return false; }
      var edited := apply(cfg.networks[i]);
      cfg := cfg.(networks := cfg.networks[i := edited.value]);
      if !edited.ok { return false; }
      ok := Save(saves);
    }

    method ForkNetwork(src: string, forked: string, saves: bool) returns (ok: bool)
      modifies this
      ensures State() == Step(old(State()), Perform(Operation.ForkNetwork(src, forked), true, saves))
      ensures ok == Succeeds(old(cfg), Operation.ForkNetwork(src, forked), true, saves)
      ensures Delivers(old(State()), State(), Operation.ForkNetwork(src, forked), ok)
    {
      StepDelivers(State(), Operation.ForkNetwork(src, forked), true, saves);
      hide Delivers;
      var i := IndexOfNetwork(src);
      if i == |cfg.networks| { return false; }
      var j := IndexOfNetwork(forked);
      if j < |cfg.networks| { return false; }
      cfg := cfg.(networks := cfg.networks + [cfg.networks[i].(name := forked)]);
      ok := Save(saves);
    }

    method DeleteNetwork(name: string, saves: bool) returns (ok: bool)
      modifies this
      ensures State() == Step(old(State()), Perform(Operation.DeleteNetwork(name), true, saves))
      ensures ok == Succeeds(old(cfg), Operation.DeleteNetwork(name), true, saves)
      ensures Delivers(old(State()), State(), Operation.DeleteNetwork(name), ok)
    {
      StepDelivers(State(), Operation.DeleteNetwork(name), true, saves);
      hide Delivers;
      var users := NetworkUsers(name);
      if |users| > 0 { return false; }
      cfg := cfg.(networks := Without(NetworkNames(cfg.networks), cfg.networks, name));
      ok := Save(saves);
    }

    // A context whose directories or save fail is taken back out.
    method CreateContext(context: Context, directories: bool, saves: bool) returns (ok: bool)
      modifies this
      ensures State() == Step(old(State()), Perform(Operation.CreateContext(context), directories, saves))
      ensures ok == Succeeds(old(cfg), Operation.CreateContext(context), directories, saves)
      ensures Delivers(old(State()), State(), Operation.CreateContext(context), ok)
      ensures !ok ==> State() == old(State())
    {
      StepDelivers(State(), Operation.CreateContext(context), directories, saves);
      hide Delivers;
      var complete := context;
      if complete.name == "" { return false; }
      var at := IndexOfContext(complete.name);
      if at < |cfg.contexts| { return false; }
      if complete.network == "" {
        if complete.authMethod != AuthMethodConsoleApi { return false; }
      } else {
        var i := IndexOfNetwork(complete.network);
        if i == |cfg.networks| { return false; }
      }
      if complete.keyring == "" { complete := complete.(keyring := "default"); }
      var k := IndexOfKeyring(complete.keyring);
      if k == |cfg.keyrings| { return false; }
      if complete.gas == "" { complete := complete.(gas := "auto"); }
      var authType := ResolveProviderAuthType(complete.providerAuthType);
      if authType.Err? { return false; }
      complete := complete.(providerAuthType := authType.value);
      if complete.authMethod !in ["", AuthMethodKeyring, AuthMethodConsoleApi] { return false; }
      assert CompleteContext(cfg, context) == Ok(complete);
      if !directories { return false; }
      cfg := cfg.(contexts := cfg.contexts + [complete]);
      ok := Save(saves);
      if !ok { cfg := cfg.(contexts := cfg.contexts[..|cfg.contexts| - 1]); }
    }

    method UseContext(name: string, saves: bool) returns (ok: bool)
      modifies this
      ensures State() == Step(old(State()), Perform(Operation.UseContext(name), true, saves))
      ensures ok == Succeeds(old(cfg), Operation.UseContext(name), true, saves)
      ensures Delivers(old(State()), State(), Operation.UseContext(name), ok)
    {
      StepDelivers(State(), Operation.UseContext(name), true, saves);
      hide Delivers;
      var at := IndexOfContext(name);
      if at == |cfg.contexts| { return false; }
      cfg := cfg.(currentContext := name);
      ok := Save(saves);
    }

    // The network half of an update, on copies.
    method EditNetwork(context: Context, fork: string, applyNetwork: Edit<Network>)
      returns (r: Result<(Context, seq<Network>)>)
      ensures r == NetworkUpdate(cfg, context, fork, Some(applyNetwork))
    {
      if context.network == "" { return Err; }
      var i := IndexOfNetwork(context.network);
      if i == |cfg.networks| { return Err; }
      var copy := cfg.networks[i];
      var linked := context;
      if fork != "" {
        var j := IndexOfNetwork(fork);
        if j < |cfg.networks| { return Err; }
        copy := copy.(name := fork);
        linked := linked.(network := fork);
      }
      var edited := applyNetwork(copy);
      if !edited.ok { return Err; }
      if fork != "" { return Ok((linked, cfg.networks + [edited.value])); }
      return Ok((linked, cfg.networks[i := edited.value]));
    }

    // The configuration an update is to save, worked out on copies.
    method PlanUpdate(name: string, fork: string, applyContext: Option<Edit<Context>>,
                      applyNetwork: Option<Edit<Network>>)
      returns (r: Result<Config>)
      ensures r == ContextUpdate(cfg, name, fork, applyContext, applyNetwork)
    {
      hide Find;
      var at := IndexOfContext(name);
      if at == |cfg.contexts| { return Err; }
      var context := cfg.contexts[at];
      if applyContext.Some? {
        var edited := applyContext.value(context);
        if !edited.ok { return Err; }
        context := edited.value;
      }
      var networks := cfg.networks;
      if applyNetwork.Some? {
        var linked := EditNetwork(context, fork, applyNetwork.value);
        if linked.Err? { return Err; }
        context, networks := linked.value.0, linked.value.1;
      } else if fork != "" {
        return Err;
      }
      var i := IndexOfNetwork(context.network);
      if context.network != "" && fork == "" && i == |cfg.networks| { return Err; }
      var k := IndexOfKeyring(context.keyring);
      if k == |cfg.keyrings| { return Err; }
      var authType := ResolveProviderAuthType(context.providerAuthType);
      if authType.Err? { return Err; }
      context := context.(providerAuthType := authType.value);
      return Ok(cfg.(contexts := cfg.contexts[at := context], networks := networks));
    }

    // All or nothing: the context and its network change together, in memory
    // and in the file, or neither does in either.
    method UpdateContextAndNetwork(name: string, fork: string, applyContext: Option<Edit<Context>>,
                                   applyNetwork: Option<Edit<Network>>, saves: bool)
      returns (ok: bool)
      modifies this
      ensures State() == Step(old(State()),
                              Perform(UpdateContext(name, fork, applyContext, applyNetwork), true, saves))
      ensures ok == Succeeds(old(cfg), UpdateContext(name, fork, applyContext, applyNetwork), true, saves)
      ensures Delivers(old(State()), State(), UpdateContext(name, fork, applyContext, applyNetwork), ok)
      ensures if ok then file == cfg else State() == old(State())
    {
      StepDelivers(State(), UpdateContext(name, fork, applyContext, applyNetwork), true, saves);
      hide Delivers;
      hide ContextUpdate;
      var planned := PlanUpdate(name, fork, applyContext, applyNetwork);
      if planned.Err? { return false; }
      var before := cfg;
      cfg := planned.value;
      ok := Save(saves);
      if !ok { cfg := before; }
    }

    method DeleteContext(name: string, saves: bool) returns (ok: bool)
      modifies this
      ensures State() == Step(old(State()), Perform(Operation.DeleteContext(name), true, saves))
      ensures ok == Succeeds(old(cfg), Operation.DeleteContext(name), true, saves)
      ensures Delivers(old(State()), State(), Operation.DeleteContext(name), ok)
    {
      StepDelivers(State(), Operation.DeleteContext(name), true, saves);
      hide Delivers;
      if cfg.currentContext == name { return false; }
      var at := IndexOfContext(name);
      if at == |cfg.contexts| { return false; }
      cfg := cfg.(contexts := Without(ContextNames(cfg.contexts), cfg.contexts, name));
      ok := Save(saves);
    }

    method RenameContext(name: string, renamed: string, directories: bool, saves: bool) returns (ok: bool)
      modifies this
      ensures State() == Step(old(State()), Perform(Operation.RenameContext(name, renamed), directories, saves))
      ensures ok == Succeeds(old(cfg), Operation.RenameContext(name, renamed), directories, saves)
      ensures Delivers(old(State()), State(), Operation.RenameContext(name, renamed), ok)
    {
      StepDelivers(State(), Operation.RenameContext(name, renamed), directories, saves);
      hide Delivers;
      var taken := IndexOfContext(renamed);
      if taken < |cfg.contexts| { return false; }
      var at := IndexOfContext(name);
      if at == |cfg.contexts| { return false; }
      if !directories { return false; }
      cfg := cfg.(contexts := cfg.contexts[at := cfg.contexts[at].(name := renamed)]);
      if cfg.currentContext == name { cfg := cfg.(currentContext := renamed); }
      ok := Save(saves);
    }

    method CreateKeyring(keyring: Keyring, saves: bool) returns (ok: bool)
      modifies this
      ensures State() == Step(old(State()), Perform(Operation.CreateKeyring(keyring), true, saves))
      ensures ok == Succeeds(old(cfg), Operation.CreateKeyring(keyring), true, saves)
      ensures Delivers(old(State()), State(), Operation.CreateKeyring(keyring), ok)
    {
      StepDelivers(State(), Operation.CreateKeyring(keyring), true, saves);
      hide Delivers;
      if keyring.name == "" { return false; }
      var i := IndexOfKeyring(keyring.name);
      if i < |cfg.keyrings| { return false; }
      var complete := keyring;
      if complete.backend == "" { complete := complete.(backend := "os"); }
      cfg := cfg.(keyrings := cfg.keyrings + [complete]);
      ok := Save(saves);
    }

    method UpdateKeyring(name: string, apply: Edit<Keyring>, saves: bool) returns (ok: bool)
      modifies this
      ensures State() == Step(old(State()), Perform(Operation.UpdateKeyring(name, apply), true, saves))
      ensures ok == Succeeds(old(cfg), Operation.UpdateKeyring(name, apply), true, saves)
      ensures Delivers(old(State()), State(), Operation.UpdateKeyring(name, apply), ok)
    {
      StepDelivers(State(), Operation.UpdateKeyring(name, apply), true, saves);
      hide Delivers;
      var i := IndexOfKeyring(name);
      if i == |cfg.keyrings| { return false; }
      var edited := apply(cfg.keyrings[i]);
      cfg := cfg.(keyrings := cfg.keyrings[i := edited.value]);
      if !edited.ok { return false; }
      ok := Save(saves);
    }

    // What was not saved is gone, and every context of a sound file resolves.
    method Reload(loads: bool) returns (ok: bool)
      modifies this`cfg
      ensures ok == loads && State() == Step(old(State()), Event.Reload(loads))
      ensures ok && Sound(file) ==> forall x :: x in ContextNames(file.contexts) ==> Resolve(cfg, x).Ok?
    {
      forall x | Sound(file) && x in ContextNames(file.contexts) ensures Resolve(file, x).Ok? {
        ListedIsNamed(file, x);
        ResolvesListed(file, x);
      }
      if loads { cfg := file; }
      return loads;
    }
  }
}
