/** The command registry's two entrances (src/commands/registry.ts): registration with broker
    certification, issued plugin contexts, the plugin channel and the host channel.

    `Step` is the registry as a state machine; the class in `Registry` has the registry's own
    shape and refines it. The theorems speak of every run of the machine. */
module Broker {
  import opened JsValues
  import opened MachineSchema
  import opened ResultCheck
  import opened ResultMeaning
  import opened CommandModel
  import CoordinateCheck

  // ---------------------------------------------------------------- certification

  const ROLES: set<string> := {"controller", "view", "file-viewer", "overlay", "preview"}

  /** The broker metadata of a registration, its result schema still raw. */
  datatype BrokerDraft = BrokerDraft(
    permissions: seq<string>, needs: seq<Requirement>, offers: seq<Provider>, authority: seq<Binding>, result: Value)

  predicate Distinct<T(==)>(items: seq<T>) {
    forall i, j :: 0 <= i < j < |items| ==> items[i] != items[j]
  }

  function DangerPermission(danger: Danger): string {
    match danger case Destructive => "commands:destructive" case Inject => "commands:inject"
  }

  predicate PermissionsOk(env: Env, permissions: seq<string>, danger: Option<Danger>) {
    && |permissions| > 0 && Distinct(permissions) && "commands" in permissions
    && (forall p :: p in permissions ==> p in env.permissions)
    && (danger.Some? ==> DangerPermission(danger.value) in permissions)
  }

  predicate ContractsOk(needs: seq<Requirement>, offers: seq<Provider>) {
    && (forall i, j :: 0 <= i < j < |needs| ==> needs[i].id != needs[j].id)
    && (forall i, j :: 0 <= i < j < |offers| ==> offers[i].id != offers[j].id)
  }

  predicate BindingOk(params: map<string, ParamSpec>, b: Binding) {
    && ((b.source.Path? || b.source.Label? || b.source.Coordinates?) ==> b.source.key != "")
    && b.param != "" && b.param !in UNSAFE_KEYS && b.param in params
    && params[b.param].kind == SourceType(b.source)
  }

  predicate AuthorityOk(params: map<string, ParamSpec>, authority: seq<Binding>) {
    && (forall i :: 0 <= i < |authority| ==> BindingOk(params, authority[i]))
    && (forall i, j :: 0 <= i < j < |authority| ==> authority[i].param != authority[j].param)
  }

  /** The raw value is a certified object schema, `s`. */
  ghost predicate ResultSchemaIs(h: Heap, raw: Value, s: Schema) {
    IsSchema(h, raw, s) && s.ObjectS?
  }

  /** Registration turns the draft into exactly this broker. */
  ghost predicate Certifies(env: Env, h: Heap, command: Command, draft: BrokerDraft, broker: BrokerSpec) {
    && PermissionsOk(env, draft.permissions, command.danger) && ContractsOk(draft.needs, draft.offers)
    && AuthorityOk(command.params, draft.authority) && ResultSchemaIs(h, draft.result, broker.result)
    && broker == BrokerSpec(draft.permissions, draft.needs, draft.offers, draft.authority, broker.result)
  }

  /** What a stored command's broker is known to satisfy. */
  ghost predicate Certified(env: Env, command: Command) {
    match command.broker
    case None => true
    case Some(b) =>
      && PermissionsOk(env, b.permissions, command.danger) && ContractsOk(b.needs, b.offers)
      && AuthorityOk(command.params, b.authority)
      && Height(b.result) <= MAX_DEPTH && Nodes(b.result) <= MAX_NODES && b.result.ObjectS?
  }

  // ---------------------------------------------------------------- issued contexts

  predicate Bounded(s: string) {
    0 < |s| <= 256
  }

  predicate TableOk(table: map<string, string>) {
    forall key :: key in table ==> key != "" && key !in UNSAFE_KEYS && Bounded(table[key])
  }

  predicate MayBeBounded(s: Option<string>) {
    s.Some? ==> Bounded(s.value)
  }

  /** What an issued context must be, its coordinates apart. */
  predicate PrincipalOk(env: Env, who: Identity) {
    && Bounded(who.runtimeId) && Bounded(who.sessionId) && Bounded(who.windowLabel) && Bounded(who.pluginId)
    && Bounded(who.contributionId) && Bounded(who.instanceId) && Bounded(who.namespace)
    && MayBeBounded(who.domHandleId) && MayBeBounded(who.pane) && MayBeBounded(who.parent)
    && who.generation as real <= MAX_SAFE_INTEGER && who.role in ROLES
    && Distinct(who.permissions) && (forall p :: p in who.permissions ==> p in env.permissions)
    && ContractsOk(who.required, who.provided)
    && TableOk(who.paths) && TableOk(who.labels)
  }

  /** `issuePluginCommandContext` accepts this identity. */
  ghost predicate IdentityOk(env: Env, who: Identity) {
    PrincipalOk(env, who) && CoordinateCheck.CoordinatesOk(who.heap, who.coordinates)
  }

  /** Nothing twice. */
  ghost predicate Once(items: seq<string>) {
    forall x :: multiset(items)[x] <= 1
  }

  lemma {:induction false} DistinctMeansOnce(items: seq<string>)
    ensures Distinct(items) <==> Once(items)
  {
    if |items| == 0 {
    } else {
      var n := |items| - 1;
      DistinctMeansOnce(items[..n]);
      assert items == items[..n] + [items[n]];
      assert multiset(items) == multiset(items[..n]) + multiset{items[n]};
      assert multiset(items[..n])[items[n]] > 0 <==> exists i :: 0 <= i < n && items[i] == items[n] by {
        assert multiset(items[..n])[items[n]] > 0 <==> items[n] in items[..n];
      }
      if Once(items) {
        assert forall x :: multiset(items[..n])[x] <= multiset(items)[x];
        assert multiset(items)[items[n]] <= 1;
      }
    }
  }

  function RequirementIds(needs: seq<Requirement>): seq<string> {
    seq(|needs|, i requires 0 <= i < |needs| => needs[i].id)
  }

  function ProviderIds(offers: seq<Provider>): seq<string> {
    seq(|offers|, i requires 0 <= i < |offers| => offers[i].id)
  }

  lemma {:induction false} ContractsMeanOnce(needs: seq<Requirement>, offers: seq<Provider>)
    ensures ContractsOk(needs, offers) <==> Once(RequirementIds(needs)) && Once(ProviderIds(offers))
  {
    var a, b := RequirementIds(needs), ProviderIds(offers);
    DistinctMeansOnce(a);
    DistinctMeansOnce(b);
    assert forall i :: 0 <= i < |needs| ==> a[i] == needs[i].id;
    assert forall i :: 0 <= i < |offers| ==> b[i] == offers[i].id;
  }

  /** All texts an identity carries. */
  function TextsOf(who: Identity): set<string> {
    {who.runtimeId, who.sessionId, who.windowLabel, who.pluginId, who.contributionId, who.instanceId, who.namespace}
    + who.paths.Values + who.labels.Values + MaybeText(who.domHandleId) + MaybeText(who.pane) + MaybeText(who.parent)
  }

  function MaybeText(s: Option<string>): set<string> {
    match s case None => {} case Some(text) => {text}
  }

  lemma {:induction false} TextsAreBounded(who: Identity)
    ensures (forall text :: text in TextsOf(who) ==> 1 <= |text| <= 256) <==>
      && Bounded(who.runtimeId) && Bounded(who.sessionId) && Bounded(who.windowLabel) && Bounded(who.pluginId)
      && Bounded(who.contributionId) && Bounded(who.instanceId) && Bounded(who.namespace)
      && MayBeBounded(who.domHandleId) && MayBeBounded(who.pane) && MayBeBounded(who.parent)
      && (forall key :: key in who.paths ==> Bounded(who.paths[key]))
      && (forall key :: key in who.labels ==> Bounded(who.labels[key]))
  {
    var own := {who.runtimeId, who.sessionId, who.windowLabel, who.pluginId, who.contributionId, who.instanceId, who.namespace};
    var maybe := MaybeText(who.domHandleId) + MaybeText(who.pane) + MaybeText(who.parent);
    assert forall text :: text in TextsOf(who) <==>
      text in own || text in maybe || text in who.paths.Values || text in who.labels.Values;
    assert who.runtimeId in own && who.sessionId in own && who.windowLabel in own && who.pluginId in own;
    assert who.contributionId in own && who.instanceId in own && who.namespace in own;
    assert who.domHandleId.Some? ==> who.domHandleId.value in maybe;
    assert who.pane.Some? ==> who.pane.value in maybe;
    assert who.parent.Some? ==> who.parent.value in maybe;
    assert forall key :: key in who.paths ==> who.paths[key] in who.paths.Values;
    assert forall key :: key in who.labels ==> who.labels[key] in who.labels.Values;
  }

  predicate SafeKey(key: string) {
    key != "" && key != "__proto__" && key != "prototype" && key != "constructor"
  }

  /** Exactly which contexts are issued. */
  lemma {:induction false} IdentityExactly(env: Env, who: Identity)
    ensures IdentityOk(env, who) <==>
      && (forall text :: text in TextsOf(who) ==> 1 <= |text| <= 256)
      && (forall key :: key in who.paths || key in who.labels || key in who.coordinates ==> SafeKey(key))
      && who.role in {"controller", "view", "file-viewer", "overlay", "preview"}
      && who.generation < 0x20_0000_0000_0000
      && Once(who.permissions) && (forall p :: p in who.permissions ==> p in env.permissions)
      && Once(RequirementIds(who.required)) && Once(ProviderIds(who.provided))
      && (forall key :: key in who.coordinates ==> CoordinateCheck.CoordinateOk(who.heap, who.coordinates[key]))
  {
    TextsAreBounded(who);
    DistinctMeansOnce(who.permissions);
    ContractsMeanOnce(who.required, who.provided);
    assert who.generation as real <= MAX_SAFE_INTEGER <==> who.generation < 0x20_0000_0000_0000;
    assert forall key: string :: SafeKey(key) <==> key != "" && key !in UNSAFE_KEYS;
  }

  lemma {:induction false} BindingsMean(params: map<string, ParamSpec>, authority: seq<Binding>)
    ensures (forall i :: 0 <= i < |authority| ==> BindingOk(params, authority[i])) <==>
            (forall b :: b in authority ==> IsBinding(params, b))
  {
    forall b: Binding ensures BindingOk(params, b) <==> IsBinding(params, b) {
    }
    if forall i :: 0 <= i < |authority| ==> BindingOk(params, authority[i]) {
      forall b | b in authority ensures IsBinding(params, b) {
        var i :| 0 <= i < |authority| && authority[i] == b;
      }
    }
  }

  /** Exactly which drafts certify. */
  lemma {:induction false} CertifiesExactly(env: Env, h: Heap, command: Command, draft: BrokerDraft)
    ensures (exists b :: Certifies(env, h, command, draft, b)) <==>
      && "commands" in draft.permissions && Once(draft.permissions)
      && (forall p :: p in draft.permissions ==> p in env.permissions)
      && (command.danger == Some(Destructive) ==> "commands:destructive" in draft.permissions)
      && (command.danger == Some(Inject) ==> "commands:inject" in draft.permissions)
      && Once(RequirementIds(draft.needs)) && Once(ProviderIds(draft.offers))
      && (forall b :: b in draft.authority ==> IsBinding(command.params, b))
      && (forall i, j :: 0 <= i < j < |draft.authority| ==> draft.authority[i].param != draft.authority[j].param)
      && (exists s :: ResultSchemaIs(h, draft.result, s))
  {
    BindingsMean(command.params, draft.authority);
    DistinctMeansOnce(draft.permissions);
    ContractsMeanOnce(draft.needs, draft.offers);
    if command.danger.Some? { assert command.danger.value.Destructive? || command.danger.value.Inject?; }
    if s :| ResultSchemaIs(h, draft.result, s) {
      var b := BrokerSpec(draft.permissions, draft.needs, draft.offers, draft.authority, s);
      assert b.result == s;
      assert Certifies(env, h, command, draft, b) <==>
        PermissionsOk(env, draft.permissions, command.danger) && ContractsOk(draft.needs, draft.offers)
        && AuthorityOk(command.params, draft.authority);
    }
  }

  /** A declared parameter under a safe name, of the type its source has. */
  predicate IsBinding(params: map<string, ParamSpec>, b: Binding) {
    && b.param in params && b.param != "" && b.param != "__proto__" && b.param != "prototype" && b.param != "constructor"
    && match b.source
       case Generation => params[b.param].kind == NumberT
       case Coordinates(key) => params[b.param].kind == JsonT && key != ""
       case Path(key) => params[b.param].kind == StringT && key != ""
       case Label(key) => params[b.param].kind == StringT && key != ""
       case _ => params[b.param].kind == StringT
  }

  // ---------------------------------------------------------------- the machine

  /** One handler call: the command as it was then, its arguments, the plugin it was made for, whether it
      came from outside, and the gate it met. */
  datatype Call = Call(
    name: string, command: Command, args: Args, plugin: Option<Identity>, remote: bool, gate: set<Danger>)

  /** One answer of the plugin channel. */
  datatype Reply = Reply(command: Command, outcome: Outcome)

  /** `issued` holds the frozen contents of every context object the registry itself made. */
  datatype State = State(
    commands: map<string, Command>, issued: map<nat, Identity>, gate: set<Danger>,
    calls: seq<Call>, replies: seq<Reply>)

  ghost const INITIAL: State := State(map[], map[], {Destructive, Inject}, [], [])

  datatype Event =
    | Register(name: string, command: Command, heap: Heap, draft: Option<BrokerDraft>)
    | Unregister(name: string)
    | Issue(token: nat, who: Identity)
    | SetGate(gate: set<Danger>)
    | HostCall(name: string, heap: Heap, args: Args, claimsPlugin: bool, remote: bool, answer: Answer)
    | PluginCall(token: nat, name: string, heap: Heap, given: Option<Args>, answer: Answer)

  function Absent(commands: map<string, Command>): Outcome {
    Failure(if |commands| == 0 then RegistryEmpty else UnknownCommand)
  }

  /** `executeInner`: the outcome, and the handler call if one was made. */
  ghost function Run(
    env: Env, st: State, name: string, h: Heap, args: Args, plugin: Option<Identity>, remote: bool, answer: Answer)
    : (r: (Outcome, Option<Call>))
  {
    if name !in st.commands then (Absent(st.commands), None)
    else
      var command := st.commands[name];
      var named := Rewritten(env, command, args);
      if !ArgsOk(h, command, named) then (Failure(InvalidParams), None)
      else if remote && command.danger.Some? && command.danger.value !in st.gate then (Failure(PermissionDenied), None)
      else (Normalized(command, answer), Some(Call(name, command, WithDefaults(command, named), plugin, remote, st.gate)))
  }

  predicate Provides(env: Env, provided: seq<Provider>, need: Requirement) {
    exists i :: 0 <= i < |provided| && Satisfies(env, need, provided[i])
  }

  predicate Requires(env: Env, required: seq<Requirement>, offer: Provider) {
    exists i :: 0 <= i < |required| && Satisfies(env, required[i], offer)
  }

  /** `contractRequirementSatisfiedBy`. */
  predicate Satisfies(env: Env, need: Requirement, provider: Provider) {
    need.id == provider.id && env.semverSatisfies(provider.version, need.range)
  }

  /** Each side of the contracts meets the other. */
  predicate ContractsMet(env: Env, b: BrokerSpec, who: Identity) {
    && (forall i :: 0 <= i < |b.needs| ==> Provides(env, who.provided, b.needs[i]))
    && (forall i :: 0 <= i < |b.offers| ==> Requires(env, who.required, b.offers[i]))
  }

  predicate PermissionsGranted(b: BrokerSpec, who: Identity) {
    forall i :: 0 <= i < |b.permissions| ==> b.permissions[i] in who.permissions
  }

  predicate NamesBound(b: BrokerSpec, args: Args) {
    exists i :: 0 <= i < |b.authority| && b.authority[i].param in args
  }

  /** `executePluginInner`; `given` is None when the parameters are not a plain object. */
  ghost function RunForPlugin(
    env: Env, st: State, token: nat, name: string, h: Heap, given: Option<Args>, answer: Answer)
    : (r: (Outcome, Option<Call>))
  {
    if token !in st.issued then (Failure(AuthRequired), None)
    else if name !in st.commands then (Absent(st.commands), None)
    else if st.commands[name].broker.None? then (Failure(CallForbidden), None)
    else if given.None? then (Failure(InvalidParams), None)
    else
      var b, who := st.commands[name].broker.value, st.issued[token];
      if NamesBound(b, given.value) then (Failure(AuthorityForbidden), None)
      else if !PermissionsGranted(b, who) then (Failure(PermissionDenied), None)
      else if !ContractsMet(env, b, who) then (Failure(ContractDenied), None)
      else if !Available(b.authority, who) then (Failure(AuthorityUnavailable), None)
      else
        var (outcome, call) := Run(env, st, name, h, WithAuthority(given.value, b.authority, who), Some(who), true, answer);
        if outcome.Success? && !Conforms(b.result, outcome) then (Failure(ResultInvalid), call) else (outcome, call)
  }

  function Logged<T>(log: seq<T>, entry: Option<T>): seq<T> {
    match entry case None => log case Some(e) => log + [e]
  }

  ghost function Step(env: Env, st: State, ev: Event): State {
    match ev
    case Register(name, command, heap, draft) =>
      if name in st.commands then st
      else if draft.None? then st.(commands := st.commands[name := command.(broker := None)])
      else if exists b :: Certifies(env, heap, command, draft.value, b) then
        var b :| Certifies(env, heap, command, draft.value, b);
        st.(commands := st.commands[name := command.(broker := Some(b))])
      else st
    case Unregister(name) => st.(commands := st.commands - {name})
    case Issue(token, who) =>
      if token in st.issued || !IdentityOk(env, who) then st else st.(issued := st.issued[token := who])
    case SetGate(gate) => st.(gate := gate)
    case HostCall(name, heap, args, claimsPlugin, remote, answer) =>
      if claimsPlugin then st
      else st.(calls := Logged(st.calls, Run(env, st, name, heap, args, None, remote, answer).1))
    case PluginCall(token, name, heap, given, answer) =>
      var (outcome, call) := RunForPlugin(env, st, token, name, heap, given, answer);
      st.(calls := Logged(st.calls, call),
          replies := if name in st.commands then st.replies + [Reply(st.commands[name], outcome)] else st.replies)
  }

  ghost function RunAll(env: Env, events: seq<Event>): State {
    if |events| == 0 then INITIAL
    else Step(env, RunAll(env, events[..|events| - 1]), events[|events| - 1])
  }

  // ---------------------------------------------------------------- what every handler call satisfies

  /** A call from outside passed the danger gate, and one made for a plugin every other check as well. */
  ghost predicate Gated(env: Env, call: Call) {
    && (call.remote && call.command.danger.Some? ==> call.command.danger.value in call.gate)
    && (call.plugin.Some? ==>
          && call.remote
          && IdentityOk(env, call.plugin.value)
          && call.command.broker.Some?
          && PermissionsGranted(call.command.broker.value, call.plugin.value)
          && ContractsMet(env, call.command.broker.value, call.plugin.value)
          && (call.command.danger.Some? ==> DangerPermission(call.command.danger.value) in call.plugin.value.permissions))
  }

  /** Unless the handler owns its parameters, as lookup sees them: every key is known, every required
      parameter there, and no default left out. (`HandlerArgumentsExactly` says where lookup is mistaken.) */
  predicate Supplied(command: Command, args: Args) {
    command.handlerOwnsParams ||
    ((forall key :: key in args ==> Visible(command.params, key))
     && forall key :: key in command.params ==>
          && (command.params[key].required ==> !Missing(ArgAt(args, key)))
          && (ArgAt(args, key) == Plain(Undefined) ==> command.params[key].default.Undefined?))
  }

  /** Every parameter the host owns holds exactly the host's value. */
  ghost predicate AuthorityHeld(args: Args, authority: seq<Binding>, who: Identity) {
    forall i :: 0 <= i < |authority| ==>
      authority[i].param in args && HostValue(authority[i].source, who) == Some(args[authority[i].param])
  }

  ghost predicate CallSound(env: Env, call: Call) {
    && Gated(env, call) && Supplied(call.command, call.args)
    && (call.plugin.Some? && EnvOk(env) && !MayDivert(call.command) ==>
          AuthorityHeld(call.args, call.command.broker.value.authority, call.plugin.value))
    && (call.plugin.Some? && "_" !in call.command.params ==>
          AuthorityHeld(call.args, call.command.broker.value.authority, call.plugin.value))
  }

  /** The one binding is to `_`, and a value that comes alone under that name is meant for another
      parameter. */
  ghost predicate MayDivert(command: Command) {
    && command.broker.Some? && |command.broker.value.authority| == 1 && command.broker.value.authority[0].param == "_"
    && ShorthandTarget(command).Some? && ShorthandTarget(command) != Some("_")
  }

  /** The call was made for a context the registry issued. */
  ghost predicate WasIssued(st: State, call: Call) {
    call.plugin.Some? ==> exists token :: token in st.issued && st.issued[token] == call.plugin.value
  }

  ghost predicate ReplySound(reply: Reply) {
    reply.outcome.Success? ==> reply.command.broker.Some? && Conforms(reply.command.broker.value.result, reply.outcome)
  }

  ghost predicate Sound(env: Env, st: State) {
    && (forall name :: name in st.commands ==> Certified(env, st.commands[name]))
    && (forall token :: token in st.issued ==> IdentityOk(env, st.issued[token]))
    && (forall i :: 0 <= i < |st.calls| ==> CallSound(env, st.calls[i]) && WasIssued(st, st.calls[i]))
    && (forall i :: 0 <= i < |st.replies| ==> ReplySound(st.replies[i]))
  }

  // ---------------------------------------------------------------- injection survives

  lemma {:induction false} InjectedKeys(args: Args, authority: seq<Binding>, who: Identity)
    requires Available(authority, who)
    ensures WithAuthority(args, authority, who).Keys == args.Keys + set i | 0 <= i < |authority| :: authority[i].param
  {
    if |authority| == 0 {
    } else {
      var n := |authority| - 1;
      InjectedKeys(args, authority[..n], who);
      assert forall i :: 0 <= i < n ==> authority[..n][i] == authority[i];
      forall key ensures key in WithAuthority(args, authority, who) <==>
        key in args || exists i :: 0 <= i < |authority| && authority[i].param == key
      {
        if exists i :: 0 <= i < |authority| && authority[i].param == key {
          var i :| 0 <= i < |authority| && authority[i].param == key;
          if i < n { assert authority[..n][i].param == key; }
        }
      }
    }
  }

  lemma {:induction false} InjectedValues(args: Args, authority: seq<Binding>, who: Identity)
    requires Available(authority, who)
    requires forall i, j :: 0 <= i < j < |authority| ==> authority[i].param != authority[j].param
    ensures AuthorityHeld(WithAuthority(args, authority, who), authority, who)
  {
    if |authority| == 0 {
    } else {
      var n := |authority| - 1;
      assert forall i :: 0 <= i < n ==> authority[..n][i] == authority[i];
      InjectedValues(args, authority[..n], who);
      forall i | 0 <= i < n ensures
        var all := WithAuthority(args, authority, who);
        authority[i].param in all && HostValue(authority[i].source, who) == Some(all[authority[i].param])
      {
        assert authority[..n][i] == authority[i] && authority[i].param != authority[n].param;
      }
    }
  }

  /** The shorthand takes the only argument away from a parameter the host owns, and no default puts
      the same value back. */
  ghost predicate Diverted(command: Command, injected: Args, authority: seq<Binding>, who: Identity) {
    && |authority| > 0
    && Rewrites(command, injected) && ShorthandTarget(command) != Some("_")
    && ("_" in command.params ==> HostValue(authority[0].source, who) != Some(Plain(command.params["_"].default)))
  }

  /** `Number(n)` is `n`. */
  ghost predicate EnvOk(env: Env) {
    forall n :: env.toNumber(Plain(Number(n))) == n
  }

  /** The host keeps no undefined value: so it is in every issued context. */
  ghost predicate Defined(who: Identity) {
    forall key :: key in who.coordinates ==> !who.coordinates[key].Undefined?
  }

  lemma {:induction false} IssuedIsDefined(env: Env, who: Identity)
    requires IdentityOk(env, who)
    ensures Defined(who)
  {
    forall key | key in who.coordinates ensures !who.coordinates[key].Undefined? {
      assert CoordinateCheck.CoordinateOk(who.heap, who.coordinates[key]);
    }
  }

  lemma {:induction false} DefaultsKeepAuthority(command: Command, args: Args, authority: seq<Binding>, who: Identity)
    requires AuthorityHeld(args, authority, who) && Defined(who)
    ensures AuthorityHeld(WithDefaults(command, args), authority, who)
  {
  }

  /** Only an argument bound to `_` can be taken for a shorthand once the host's values are in. */
  lemma {:induction false} RewritesOneBinding(command: Command, args: Args, authority: seq<Binding>, who: Identity)
    requires AuthorityOk(command.params, authority) && Available(authority, who)
    requires |authority| > 0 && Rewrites(command, WithAuthority(args, authority, who))
    ensures |authority| == 1 && authority[0].param == "_"
  {
    InjectedKeys(args, authority, who);
    var injected := WithAuthority(args, authority, who);
    assert forall i :: 0 <= i < |authority| ==> authority[i].param in injected.Keys;
  }

  /** In every call that gets as far as its handler, the host's values arrive exactly when the
      shorthand does not divert the one that is bound to `_`. */
  lemma {:induction false} AuthorityExactly(env: Env, command: Command, args: Args, authority: seq<Binding>, who: Identity)
    requires EnvOk(env) && AuthorityOk(command.params, authority) && Available(authority, who) && Defined(who)
    ensures var injected := WithAuthority(args, authority, who);
      AuthorityHeld(WithDefaults(command, Rewritten(env, command, injected)), authority, who) <==>
      !Diverted(command, injected, authority, who)
  {
    var injected := WithAuthority(args, authority, who);
    InjectedValues(args, authority, who);
    DefaultsKeepAuthority(command, injected, authority, who);
    if |authority| > 0 && Rewrites(command, injected) {
      RewritesOneBinding(command, args, authority, who);
      DivertedExactly(env, command, injected, authority[0], who);
      assert authority == [authority[0]];
    }
  }

  lemma {:induction false} DivertedExactly(env: Env, command: Command, injected: Args, b: Binding, who: Identity)
    requires EnvOk(env) && BindingOk(command.params, b) && b.param == "_" && HostValue(b.source, who).Some? && Defined(who)
    requires Rewrites(command, injected) && injected["_"] == HostValue(b.source, who).value
    ensures AuthorityHeld(WithDefaults(command, Rewritten(env, command, injected)), [b], who) <==>
      !Diverted(command, injected, [b], who)
  {
    var key := ShorthandTarget(command).value;
    var args := Rewritten(env, command, injected);
    if key == "_" {
      assert args["_"] == HostValue(b.source, who).value;
    } else {
      assert "_" !in args;
    }
  }

  /** Without a parameter named `_` nothing is diverted. */
  lemma {:induction false} NoUnderscoreNoDiversion(
    env: Env, command: Command, args: Args, authority: seq<Binding>, who: Identity)
    requires AuthorityOk(command.params, authority) && Available(authority, who) && Defined(who) && "_" !in command.params
    ensures AuthorityHeld(WithDefaults(command, Rewritten(env, command, WithAuthority(args, authority, who))), authority, who)
  {
    var injected := WithAuthority(args, authority, who);
    InjectedValues(args, authority, who);
    DefaultsKeepAuthority(command, injected, authority, who);
    if |authority| > 0 && Rewrites(command, injected) { RewritesOneBinding(command, args, authority, who); }
  }

  /** If a host value does not arrive, the command is one whose only binding the shorthand may divert. */
  lemma {:induction false} LostOnlyByDiversion(
    env: Env, command: Command, args: Args, who: Identity)
    requires EnvOk(env) && command.broker.Some? && AuthorityOk(command.params, command.broker.value.authority)
    requires Available(command.broker.value.authority, who) && Defined(who)
    ensures var authority := command.broker.value.authority;
      AuthorityHeld(WithDefaults(command, Rewritten(env, command, WithAuthority(args, authority, who))), authority, who)
      || MayDivert(command)
  {
    var authority := command.broker.value.authority;
    AuthorityExactly(env, command, args, authority, who);
    if Diverted(command, WithAuthority(args, authority, who), authority, who) {
      RewritesOneBinding(command, args, authority, who);
    }
  }

  /** A value bound by the host always has the parameter's type: validation can only refuse it for an
      enum, or because a required parameter received `null`. */
  lemma BoundValueHasItsType(h: Heap, command: Command, b: Binding, who: Identity)
    requires BindingOk(command.params, b) && HostValue(b.source, who).Some? && Defined(who)
    ensures var p, arg := command.params[b.param], HostValue(b.source, who).value;
      && TypeOk(h, p.kind, arg)
      && (ParamOk(h, p, arg) <==> OptionOk(p, arg) && !(p.required && arg == Plain(Null)))
  {
  }

  /** A command that binds `_` and requires one other parameter. */
  ghost function UnderscoreCommand(): Command {
    var text := ParamSpec(StringT, false, None, Undefined);
    Command(map["_" := text, "target" := text.(required := true)], None, false, false, None,
      Some(BrokerSpec(["commands"], [], [], [Binding("_", PluginId)], ObjectS([], [], false))))
  }

  lemma UnderscoreIsRewritten(env: Env, host: Arg)
    requires TypeOk([], StringT, host)
    ensures Rewritten(env, UnderscoreCommand(), map["_" := host]) == map["target" := host]
    ensures ArgsOk([], UnderscoreCommand(), map["target" := host])
  {
    var command := UnderscoreCommand();
    var required := set key | key in command.params && command.params[key].required;
    assert required == {"target"};
  }

  /** Registration certifies that command, yet its handler gets the host's value under the other name,
      and nothing under `_`. */
  lemma ShorthandDiverts(env: Env, who: Identity)
    requires "commands" in env.permissions
    ensures var command := UnderscoreCommand();
      var authority := command.broker.value.authority;
      && Certified(env, command)
      && var args := WithDefaults(command, Rewritten(env, command, WithAuthority(map[], authority, who)));
      && args == map["target" := Plain(Str(who.pluginId))] && !AuthorityHeld(args, authority, who)
  {
    var host, authority := Plain(Str(who.pluginId)), [Binding("_", PluginId)];
    UnderscoreIsCertified(env);
    assert authority[..0] == [];
    assert WithAuthority(map[], authority[..0], who) == map[];
    assert WithAuthority(map[], authority, who) == map["_" := host];
    UnderscoreIsRewritten(env, host);
    assert authority[0].param == "_";
  }

  lemma UnderscoreIsCertified(env: Env)
    requires "commands" in env.permissions
    ensures Certified(env, UnderscoreCommand())
  {
    var b := UnderscoreCommand().broker.value;
    assert PermissionsOk(env, b.permissions, None);
    assert BindingOk(UnderscoreCommand().params, b.authority[0]);
  }

  // ---------------------------------------------------------------- every run is sound

  /** The only handler call the plugin channel makes, and what it passed on the way. */
  lemma {:induction false} PluginCallShape(
    env: Env, st: State, token: nat, name: string, h: Heap, given: Option<Args>, answer: Answer)
    requires RunForPlugin(env, st, token, name, h, given, answer).1.Some?
    ensures token in st.issued && name in st.commands && given.Some? && st.commands[name].broker.Some?
    ensures var command, who := st.commands[name], st.issued[token];
      var b := command.broker.value;
      && PermissionsGranted(b, who) && ContractsMet(env, b, who) && Available(b.authority, who)
      && (command.danger.Some? ==> command.danger.value in st.gate)
      && ArgsOk(h, command, Rewritten(env, command, WithAuthority(given.value, b.authority, who)))
      && var args := WithDefaults(command, Rewritten(env, command, WithAuthority(given.value, b.authority, who)));
      RunForPlugin(env, st, token, name, h, given, answer).1 == Some(Call(name, command, args, Some(who), true, st.gate))
  {
  }

  /** Validation and defaults together leave no gap. */
  lemma {:induction false} ValidIsSupplied(h: Heap, command: Command, named: Args)
    requires ArgsOk(h, command, named)
    ensures Supplied(command, WithDefaults(command, named))
  {
    if !command.handlerOwnsParams {
      var args := WithDefaults(command, named);
      forall key | key in command.params
        ensures command.params[key].required ==> !Missing(ArgAt(args, key))
        ensures ArgAt(args, key) == Plain(Undefined) ==> command.params[key].default.Undefined?
      {
        assert ParamOk(h, command.params[key], ArgAt(named, key));
      }
    }
  }

  lemma {:induction false} GrantedDanger(env: Env, command: Command, who: Identity)
    requires Certified(env, command) && command.broker.Some? && PermissionsGranted(command.broker.value, who)
    requires command.danger.Some?
    ensures DangerPermission(command.danger.value) in who.permissions
  {
    var permissions := command.broker.value.permissions;
    var i :| 0 <= i < |permissions| && permissions[i] == DangerPermission(command.danger.value);
  }

  /** A handler call through the plugin channel comes from an issued context, behind every gate, and
      carries the host's values. */
  lemma {:induction false} PluginCallIsSound(
    env: Env, st: State, token: nat, name: string, h: Heap, given: Option<Args>, answer: Answer)
    requires Sound(env, st) && RunForPlugin(env, st, token, name, h, given, answer).1.Some?
    ensures var call := RunForPlugin(env, st, token, name, h, given, answer).1.value;
      token in st.issued && call.plugin == Some(st.issued[token]) && CallSound(env, call)
  {
    PluginCallShape(env, st, token, name, h, given, answer);
    var command, who := st.commands[name], st.issued[token];
    var b := command.broker.value;
    assert Certified(env, command);
    IssuedIsDefined(env, who);
    ValidIsSupplied(h, command, Rewritten(env, command, WithAuthority(given.value, b.authority, who)));
    if command.danger.Some? { GrantedDanger(env, command, who); }
    if EnvOk(env) { LostOnlyByDiversion(env, command, given.value, who); }
    if "_" !in command.params { NoUnderscoreNoDiversion(env, command, given.value, b.authority, who); }
  }

  lemma {:induction false} PluginReplyIsSound(
    env: Env, st: State, token: nat, name: string, h: Heap, given: Option<Args>, answer: Answer)
    requires name in st.commands
    ensures ReplySound(Reply(st.commands[name], RunForPlugin(env, st, token, name, h, given, answer).0))
  {
  }

  lemma {:induction false} RegisterKeepsSound(env: Env, st: State, ev: Event)
    requires Sound(env, st) && ev.Register?
    ensures Sound(env, Step(env, st, ev))
  {
    var after := Step(env, st, ev);
    forall name | name in after.commands ensures Certified(env, after.commands[name]) {
      if name !in st.commands {
        assert after.commands[name].broker.Some? ==>
          Certifies(env, ev.heap, ev.command, ev.draft.value, after.commands[name].broker.value);
      }
    }
  }

  lemma {:induction false} PluginCallKeepsSound(env: Env, st: State, ev: Event)
    requires Sound(env, st) && ev.PluginCall?
    ensures Sound(env, Step(env, st, ev))
  {
    var (outcome, call) := RunForPlugin(env, st, ev.token, ev.name, ev.heap, ev.given, ev.answer);
    if call.Some? {
      PluginCallIsSound(env, st, ev.token, ev.name, ev.heap, ev.given, ev.answer);
    }
    if ev.name in st.commands { PluginReplyIsSound(env, st, ev.token, ev.name, ev.heap, ev.given, ev.answer); }
  }

  lemma {:induction false} StillIssued(st: State, after: State, call: Call)
    requires WasIssued(st, call)
    requires forall token :: token in st.issued ==> token in after.issued && after.issued[token] == st.issued[token]
    ensures WasIssued(after, call)
  {
    if call.plugin.Some? {
      var token :| token in st.issued && st.issued[token] == call.plugin.value;
      assert token in after.issued && after.issued[token] == call.plugin.value;
    }
  }

  lemma {:induction false} IssueKeepsSound(env: Env, st: State, ev: Event)
    requires Sound(env, st) && ev.Issue?
    ensures Sound(env, Step(env, st, ev))
  {
    var after := Step(env, st, ev);
    forall i | 0 <= i < |after.calls| ensures WasIssued(after, after.calls[i]) {
      StillIssued(st, after, st.calls[i]);
    }
  }

  lemma {:induction false} OtherStepsKeepSound(env: Env, st: State, ev: Event)
    requires Sound(env, st) && !ev.Register? && !ev.PluginCall? && !ev.Issue?
    ensures Sound(env, Step(env, st, ev))
  {
    if ev.HostCall? && ev.name in st.commands {
      var command := st.commands[ev.name];
      var named := Rewritten(env, command, ev.args);
      if ArgsOk(ev.heap, command, named) { ValidIsSupplied(ev.heap, command, named); }
    }
  }

  lemma {:induction false} StepKeepsSound(env: Env, st: State, ev: Event)
    requires Sound(env, st)
    ensures Sound(env, Step(env, st, ev))
  {
    match ev
    case Register(_, _, _, _) => RegisterKeepsSound(env, st, ev);
    case PluginCall(_, _, _, _, _) => PluginCallKeepsSound(env, st, ev);
    case Issue(_, _) => IssueKeepsSound(env, st, ev);
    case _ => OtherStepsKeepSound(env, st, ev);
  }

  /** Whatever is registered, removed, issued and called, in any order, and whatever the handlers answer:
      no handler is called past the gate or short of a required parameter, as lookup sees it; a plugin's call
      reaches one only from a context that was issued, with every grant, and with the host's own values unless
      the command's only binding is one the shorthand may divert; and every success the plugin sees carries
      data legal for the command's certified schema. */
  lemma {:induction false} EveryRunIsSound(env: Env, events: seq<Event>)
    ensures Sound(env, RunAll(env, events))
  {
    if |events| == 0 {
    } else {
      EveryRunIsSound(env, events[..|events| - 1]);
      StepKeepsSound(env, RunAll(env, events[..|events| - 1]), events[|events| - 1]);
    }
  }
}
