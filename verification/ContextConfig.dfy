// The configuration of networks, keyrings and contexts, and what each manager
// operation does to it (internal/context/manager.go, internal/context/types.go).
module ContextConfig {
  import opened Basics

  datatype Network = Network(
    name: string, chainId: string, rpc: seq<string>, api: seq<string>, grpc: seq<string>,
    gasPrices: string, gasAdjustment: string, faucet: string)

  datatype Keyring = Keyring(name: string, backend: string, dir: string)

  // A context as configured: its network and keyring are references by name.
  datatype Context = Context(
    name: string, network: string, keyring: string, authMethod: string, consoleApiUrl: string,
    defaultAccount: string, trackedAccounts: seq<string>, gas: string, fees: string, providerAuthType: string)

  datatype Config = Config(
    currentContext: string, networks: seq<Network>, keyrings: seq<Keyring>, contexts: seq<Context>)

  // A context with its references followed.
  datatype Resolved = Resolved(
    name: string, network: Network, keyring: Keyring, authMethod: string, consoleApiUrl: string,
    defaultAccount: string, trackedAccounts: seq<string>, gas: string, fees: string, authType: string,
    gasPrices: string, gasAdjustment: string)

  const AuthMethodKeyring := "keyring"
  const AuthMethodConsoleApi := "console-api"
  const ProviderAuthJwt := "jwt"
  const ProviderAuthMtls := "mtls"
  const DefaultConsoleApiUrl := "https://console-api.akash.network"
  const NoNetwork := Network("", "", [], [], [], "", "", "")

  function ResolveProviderAuthType(value: string): (r: Result<string>)
    ensures r.Ok? ==> ValidAuthType(r.value)
    ensures r.Ok? <==> value == "" || ValidAuthType(value)
  {
    if value == "" then Ok(ProviderAuthJwt)
    else if value == ProviderAuthJwt || value == ProviderAuthMtls then Ok(value)
    else Err
  }

  predicate ValidAuthType(value: string) { value == ProviderAuthJwt || value == ProviderAuthMtls }

  // ---- Tables with a name column ----

  // The first position of name, or the length.
  function Find(names: seq<string>, name: string): (i: nat)
    ensures i <= |names| && (i < |names| ==> names[i] == name)
    ensures forall j :: 0 <= j < i ==> names[j] != name
  {
    if names == [] || names[0] == name then 0 else 1 + Find(names[1..], name)
  }

  function Lookup<T>(names: seq<string>, items: seq<T>, name: string): Option<T>
    requires |names| == |items|
  {
    var i := Find(names, name);
    if i < |items| then Some(items[i]) else None
  }

  // The items not called name.
  function Without<T>(names: seq<string>, items: seq<T>, name: string): seq<T>
    requires |names| == |items|
    decreases |names|
  {
    if names == [] then []
    else (if names[0] == name then [] else [items[0]]) + Without(names[1..], items[1..], name)
  }

  function NetworkNames(s: seq<Network>): seq<string> { seq(|s|, i requires 0 <= i < |s| => s[i].name) }
  function KeyringNames(s: seq<Keyring>): seq<string> { seq(|s|, i requires 0 <= i < |s| => s[i].name) }
  function ContextNames(s: seq<Context>): seq<string> { seq(|s|, i requires 0 <= i < |s| => s[i].name) }

  function NetworkOf(c: Config, name: string): Option<Network> { Lookup(NetworkNames(c.networks), c.networks, name) }
  function KeyringOf(c: Config, name: string): Option<Keyring> { Lookup(KeyringNames(c.keyrings), c.keyrings, name) }
  function ContextOf(c: Config, name: string): Option<Context> { Lookup(ContextNames(c.contexts), c.contexts, name) }

  // ---- Operations ----

  // A callback's outcome: the value it left behind, and whether it succeeded.
  datatype Edited<T> = Edited(value: T, ok: bool)
  type Edit<!T> = T -> Edited<T>

  datatype Operation =
    | CreateNetwork(network: Network)
    | UpdateNetwork(name: string, editNetwork: Edit<Network>)
    | ForkNetwork(src: string, forked: string)
    | DeleteNetwork(name: string)
    | CreateContext(context: Context)
    | UseContext(name: string)
    | UpdateContext(name: string, fork: string,
                    contextEdit: Option<Edit<Context>>, networkEdit: Option<Edit<Network>>)
    | DeleteContext(name: string)
    | RenameContext(name: string, renamed: string)
    | CreateKeyring(keyring: Keyring)
    | UpdateKeyring(name: string, editKeyring: Edit<Keyring>)

  // An operation either stops with an error, leaving this configuration in
  // memory, or saves one and falls back to another if the save fails.
  datatype Attempt = Refused(memory: Config) | Saving(after: Config, fallback: Config)

  function Attempted(c: Config, op: Operation, directories: bool): Attempt {
    match op
    case CreateNetwork(network) =>
      if network.name == "" || NetworkOf(c, network.name).Some? then Refused(c)
      else InMemory(c.(networks := c.networks + [network]))
    case UpdateNetwork(name, edit) =>
      var i := Find(NetworkNames(c.networks), name);
      if i == |c.networks| then Refused(c)
      else
        var edited := edit(c.networks[i]);
        var after := c.(networks := c.networks[i := edited.value]);
        if edited.ok then InMemory(after) else Refused(after)
    case ForkNetwork(src, forked) =>
      if NetworkOf(c, src).None? || NetworkOf(c, forked).Some? then Refused(c)
      else InMemory(c.(networks := c.networks + [NetworkOf(c, src).value.(name := forked)]))
    case DeleteNetwork(name) =>
      if exists i :: 0 <= i < |c.contexts| && c.contexts[i].network == name then Refused(c)
      else InMemory(c.(networks := Without(NetworkNames(c.networks), c.networks, name)))
    case CreateContext(context) =>
      (match CompleteContext(c, context)
       case Err => Refused(c)
       case Ok(complete) => if directories then Saving(c.(contexts := c.contexts + [complete]), c) else Refused(c))
    case UseContext(name) =>
      if ContextOf(c, name).None? then Refused(c) else InMemory(c.(currentContext := name))
    case UpdateContext(name, fork, contextEdit, networkEdit) =>
      (match ContextUpdate(c, name, fork, contextEdit, networkEdit)
       case Err => Refused(c)
       case Ok(after) => Saving(after, c))
    case DeleteContext(name) =>
      if c.currentContext == name || ContextOf(c, name).None? then Refused(c)
      else InMemory(c.(contexts := Without(ContextNames(c.contexts), c.contexts, name)))
    case RenameContext(name, renamed) =>
      var i := Find(ContextNames(c.contexts), name);
      if ContextOf(c, renamed).Some? || i == |c.contexts| || !directories then Refused(c)
      else InMemory(c.(contexts := c.contexts[i := c.contexts[i].(name := renamed)],
                       currentContext := if c.currentContext == name then renamed else c.currentContext))
    case CreateKeyring(keyring) =>
      if keyring.name == "" || KeyringOf(c, keyring.name).Some? then Refused(c)
      else
        var complete := if keyring.backend == "" then keyring.(backend := "os") else keyring;
        InMemory(c.(keyrings := c.keyrings + [complete]))
    case UpdateKeyring(name, edit) =>
      var i := Find(KeyringNames(c.keyrings), name);
      if i == |c.keyrings| then Refused(c)
      else
        var edited := edit(c.keyrings[i]);
        var after := c.(keyrings := c.keyrings[i := edited.value]);
        if edited.ok then InMemory(after) else Refused(after)
  }

  // A failed save leaves the change in memory.
  function InMemory(after: Config): Attempt { Saving(after, after) }

  // A new context with its defaults filled in, if it may be created.
  function CompleteContext(c: Config, context: Context): Result<Context> {
    if context.name == "" || ContextOf(c, context.name).Some? then Err
    else if context.network == "" && context.authMethod != AuthMethodConsoleApi then Err
    else if context.network != "" && NetworkOf(c, context.network).None? then Err
    else
      var keyring := if context.keyring == "" then "default" else context.keyring;
      if KeyringOf(c, keyring).None? then Err
      else
        match ResolveProviderAuthType(context.providerAuthType)
        case Err => Err
        case Ok(authType) =>
          if context.authMethod !in ["", AuthMethodKeyring, AuthMethodConsoleApi] then Err
          else Ok(context.(keyring := keyring, providerAuthType := authType,
                           gas := if context.gas == "" then "auto" else context.gas))
  }

  function Apply<T>(edit: Option<Edit<T>>, value: T): Edited<T> {
    match edit case None => Edited(value, true) case Some(f) => f(value)
  }

  // The configuration an update is to save, if its checks pass.
  function ContextUpdate(c: Config, name: string, fork: string,
                         contextEdit: Option<Edit<Context>>, networkEdit: Option<Edit<Network>>): Result<Config> {
    var at := Find(ContextNames(c.contexts), name);
    if at == |c.contexts| then Err
    else
      var edited := Apply(contextEdit, c.contexts[at]);
      if !edited.ok then Err
      else
        match NetworkUpdate(c, edited.value, fork, networkEdit)
        case Err => Err
        case Ok(linked) =>
          var (context, networks) := linked;
          if context.network != "" && fork == "" && NetworkOf(c, context.network).None? then Err
          else if KeyringOf(c, context.keyring).None? then Err
          else
            match ResolveProviderAuthType(context.providerAuthType)
            case Err => Err
            case Ok(authType) =>
              Ok(c.(contexts := c.contexts[at := context.(providerAuthType := authType)], networks := networks))
  }

  // The network part of the update: the context it leaves and the networks,
  // edited in place or with an edited copy added under the fork's name.
  function NetworkUpdate(c: Config, context: Context, fork: string, networkEdit: Option<Edit<Network>>)
    : Result<(Context, seq<Network>)>
  {
    match networkEdit
    case None => if fork != "" then Err else Ok((context, c.networks))
    case Some(edit) =>
      var i := Find(NetworkNames(c.networks), context.network);
      if context.network == "" || i == |c.networks| then Err
      else if fork == "" then
        var edited := edit(c.networks[i]);
        if edited.ok then Ok((context, c.networks[i := edited.value])) else Err
      else if NetworkOf(c, fork).Some? then Err
      else
        var edited := edit(c.networks[i].(name := fork));
        if edited.ok then Ok((context.(network := fork), c.networks + [edited.value])) else Err
  }

  // ---- Resolution ----

  function Resolve(c: Config, name: string): Result<Resolved> {
    var wanted := if name == "" then c.currentContext else name;
    if wanted == "" then Err else ResolveNamed(c, wanted)
  }

  function ResolveNamed(c: Config, name: string): Result<Resolved> {
    match ContextOf(c, name)
    case None => Err
    case Some(context) =>
      var network := if context.network == "" then Some(NoNetwork) else NetworkOf(c, context.network);
      var keyring := KeyringOf(c, context.keyring);
      var authType := ResolveProviderAuthType(context.providerAuthType);
      if network.None? || keyring.None? || authType.Err? then Err
      else Ok(Resolved(
                context.name, network.value, keyring.value,
                if context.authMethod == "" then AuthMethodKeyring else context.authMethod,
                if context.consoleApiUrl == "" then DefaultConsoleApiUrl else context.consoleApiUrl,
                context.defaultAccount, context.trackedAccounts, context.gas, context.fees, authType.value,
                network.value.gasPrices, network.value.gasAdjustment))
  }

  // ---- The invariant ----

  ghost predicate Distinct(names: seq<string>) {
    forall i, j :: 0 <= i < j < |names| ==> names[i] != names[j]
  }

  ghost predicate ContextSound(c: Config, context: Context) {
    && context.name != ""
    && (context.network == "" || context.network in NetworkNames(c.networks))
    && context.keyring in KeyringNames(c.keyrings)
    && (context.providerAuthType == "" || ValidAuthType(context.providerAuthType))
  }

  // Names are unique and every reference leads somewhere.
  ghost predicate Sound(c: Config) {
    && Distinct(NetworkNames(c.networks)) && Distinct(KeyringNames(c.keyrings)) && Distinct(ContextNames(c.contexts))
    && (forall i :: 0 <= i < |c.contexts| ==> ContextSound(c, c.contexts[i]))
    && (c.currentContext == "" || c.currentContext in ContextNames(c.contexts))
  }

  // Callbacks leave names alone, and a context is not renamed to nothing.
  ghost predicate KeepsNames(op: Operation) {
    match op
    case UpdateNetwork(_, edit) => forall n :: edit(n).value.name == n.name
    case UpdateKeyring(_, edit) => forall k :: edit(k).value.name == k.name
    case UpdateContext(_, _, contextEdit, networkEdit) =>
      && (contextEdit.Some? ==> forall x :: contextEdit.value(x).value.name == x.name)
      && (networkEdit.Some? ==> forall n :: networkEdit.value(n).value.name == n.name)
    case RenameContext(_, renamed) => renamed != ""
    case _ => true
  }

  // ---- Memory and file ----

  datatype State = State(memory: Config, file: Config)

  // An operation, or a reload of the file; whether the directory work and
  // the save succeed is up to the environment.
  datatype Event = Perform(op: Operation, directories: bool, saves: bool) | Reload(loads: bool)

  function Step(s: State, e: Event): State {
    match e
    case Reload(loads) => if loads then s.(memory := s.file) else s
    case Perform(op, directories, saves) =>
      match Attempted(s.memory, op, directories)
      case Refused(memory) => s.(memory := memory)
      case Saving(after, fallback) => if saves then State(after, after) else s.(memory := fallback)
  }

  function Run(s: State, events: seq<Event>): State
    decreases |events|
  {
    if events == [] then s else Run(Step(s, events[0]), events[1..])
  }
}
