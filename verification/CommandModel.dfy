/** Commands, plugin identities and the pure parts of running a command (src/commands/registry.ts):
    parameter rewriting, validation, defaults, and turning a handler's answer into an outcome. */
module CommandModel {
  import opened JsValues
  import opened MachineSchema
  import opened ResultCheck
  import opened ResultMeaning

  // ---------------------------------------------------------------- entities

  datatype Danger = Destructive | Inject

  datatype ParamType = StringT | NumberT | BooleanT | StringsT | NumbersT | JsonT

  /** An absent default is Undefined. */
  datatype ParamSpec = ParamSpec(kind: ParamType, required: bool, options: Option<seq<string>>, default: Value)

  datatype Source =
    | RuntimeId | SessionId | WindowLabel | PluginId | Generation | Role | ContributionId | InstanceId
    | Namespace | Path(key: string) | Label(key: string) | Coordinates(key: string)

  datatype Binding = Binding(param: string, source: Source)

  datatype Requirement = Requirement(id: string, range: string)

  datatype Provider = Provider(id: string, version: string)

  datatype BrokerSpec = BrokerSpec(
    permissions: seq<string>,
    needs: seq<Requirement>,       // contracts.requires: the caller must provide these
    offers: seq<Provider>,         // contracts.provides: the caller must require these
    authority: seq<Binding>,
    result: Schema)

  datatype Command = Command(
    params: map<string, ParamSpec>,
    primary: Option<string>,
    handlerOwnsParams: bool,       // paramsAuthority: "handler"
    service: bool,                 // envelope: "service"
    danger: Option<Danger>,
    broker: Option<BrokerSpec>)

  /** What the host vouches for when it issues a context. */
  datatype Identity = Identity(
    runtimeId: string, sessionId: string, windowLabel: string, pluginId: string,
    generation: nat, role: string, contributionId: string, instanceId: string,
    permissions: seq<string>, required: seq<Requirement>, provided: seq<Provider>,
    namespace: string, paths: map<string, string>, labels: map<string, string>,
    heap: Heap, coordinates: map<string, Value>,   // the values the registry keeps, in a heap of its own
    domHandleId: Option<string>, pane: Option<string>, parent: Option<string>)

  /** A parameter value: a JavaScript value, or a clone of an array or object the host keeps in its heap. */
  datatype Arg = Plain(v: Value) | Cloned(heap: Heap, v: Value)

  type Args = map<string, Arg>

  /** What the registry imports: the permission vocabulary, `Number(v)` and SemVer range matching. */
  datatype Env = Env(permissions: set<string>, toNumber: Arg -> Num, semverSatisfies: (string, string) -> bool)

  // ---------------------------------------------------------------- authority

  /** `structuredClone` of a value the host keeps: a scalar is itself. */
  function Clone(h: Heap, v: Value): Arg {
    if v.Obj? then Cloned(h, v) else Plain(v)
  }

  /** `authorityValue`. */
  function HostValue(source: Source, who: Identity): Option<Arg> {
    match source
    case RuntimeId => Some(Plain(Str(who.runtimeId)))
    case SessionId => Some(Plain(Str(who.sessionId)))
    case WindowLabel => Some(Plain(Str(who.windowLabel)))
    case PluginId => Some(Plain(Str(who.pluginId)))
    case Generation => Some(Plain(Number(Finite(who.generation as real))))
    case Role => Some(Plain(Str(who.role)))
    case ContributionId => Some(Plain(Str(who.contributionId)))
    case InstanceId => Some(Plain(Str(who.instanceId)))
    case Namespace => Some(Plain(Str(who.namespace)))
    case Path(key) => if key in who.paths then Some(Plain(Str(who.paths[key]))) else None
    case Label(key) => if key in who.labels then Some(Plain(Str(who.labels[key]))) else None
    case Coordinates(key) => if key in who.coordinates then Some(Clone(who.heap, who.coordinates[key])) else None
  }

  /** Of all sources `own`, and it alone, sees the change of the identity. */
  predicate OnlySees(source: Source, own: Source, seen: Option<Arg>, who: Identity, after: Identity) {
    HostValue(source, after) == if source == own then seen else HostValue(source, who)
  }

  lemma EachSourceHasItsField(who: Identity, source: Source, text: string, n: nat)
    ensures OnlySees(source, RuntimeId, Some(Plain(Str(text))), who, who.(runtimeId := text))
    ensures OnlySees(source, SessionId, Some(Plain(Str(text))), who, who.(sessionId := text))
    ensures OnlySees(source, WindowLabel, Some(Plain(Str(text))), who, who.(windowLabel := text))
    ensures OnlySees(source, PluginId, Some(Plain(Str(text))), who, who.(pluginId := text))
    ensures OnlySees(source, Role, Some(Plain(Str(text))), who, who.(role := text))
    ensures OnlySees(source, Generation, Some(Plain(Number(Finite(n as real)))), who, who.(generation := n))
  {
  }

  lemma EachPlaceHasItsField(who: Identity, source: Source, text: string)
    ensures OnlySees(source, ContributionId, Some(Plain(Str(text))), who, who.(contributionId := text))
    ensures OnlySees(source, InstanceId, Some(Plain(Str(text))), who, who.(instanceId := text))
    ensures OnlySees(source, Namespace, Some(Plain(Str(text))), who, who.(namespace := text))
  {
  }

  lemma EachKeyHasItsEntry(who: Identity, source: Source, key: string, text: string, v: Value)
    ensures OnlySees(source, Path(key), Some(Plain(Str(text))), who, who.(paths := who.paths[key := text]))
    ensures OnlySees(source, Path(key), None, who, who.(paths := who.paths - {key}))
    ensures OnlySees(source, Label(key), Some(Plain(Str(text))), who, who.(labels := who.labels[key := text]))
    ensures OnlySees(source, Label(key), None, who, who.(labels := who.labels - {key}))
    ensures OnlySees(source, Coordinates(key), None, who, who.(coordinates := who.coordinates - {key}))
    ensures var seen := if v.Obj? then Cloned(who.heap, v) else Plain(v);
      OnlySees(source, Coordinates(key), Some(seen), who, who.(coordinates := who.coordinates[key := v]))
  {
  }

  /** `authorityParamType`. */
  function SourceType(source: Source): ParamType {
    match source
    case Generation => NumberT
    case Coordinates(_) => JsonT
    case _ => StringT
  }

  /** The host has a value for every binding. */
  predicate Available(authority: seq<Binding>, who: Identity) {
    forall i :: 0 <= i < |authority| ==> HostValue(authority[i].source, who).Some?
  }

  /** The host's values over the caller's. */
  function WithAuthority(args: Args, authority: seq<Binding>, who: Identity): Args
    requires Available(authority, who)
  {
    if |authority| == 0 then args
    else
      var last := authority[|authority| - 1];
      WithAuthority(args, authority[..|authority| - 1], who)[last.param := HostValue(last.source, who).value]
  }

  // ---------------------------------------------------------------- parameters

  /** `key in object` and `object[key] !== undefined`, for an object with Object.prototype above it. */
  predicate Visible<T>(table: map<string, T>, key: string) {
    key in table || key in INHERITED_NAMES
  }

  /** `params[key]`. */
  function ArgAt(args: Args, key: string): Arg {
    if key in args then args[key] else if key in INHERITED_NAMES then Plain(Exotic) else Plain(Undefined)
  }

  /** The parameter a single unnamed value is meant for: the primary one, else the only required one. */
  ghost function ShorthandTarget(command: Command): Option<string> {
    var required := set key | key in command.params && command.params[key].required;
    if command.primary.Some? then
      if command.primary.value != "" && Visible(command.params, command.primary.value) then command.primary else None
    else if |required| == 1 then
      var key :| key in required;
      if key != "" then Some(key) else None
    else None
  }

  function Converted(env: Env, command: Command, key: string, arg: Arg): Arg {
    if key in command.params && command.params[key].kind.NumberT? then Plain(Number(env.toNumber(arg)))
    else if key in command.params && command.params[key].kind.BooleanT? then
      Plain(Bool(arg == Plain(Bool(true)) || arg == Plain(Str("true"))))
    else arg
  }

  /** `{_: value}` is rewritten to name the shorthand's target. */
  ghost predicate Rewrites(command: Command, args: Args) {
    args.Keys == {"_"} && ShorthandTarget(command).Some?
  }

  ghost function Rewritten(env: Env, command: Command, args: Args): Args {
    if Rewrites(command, args) then
      var key := ShorthandTarget(command).value;
      map[key := Converted(env, command, key, args["_"])]
    else args
  }

  predicate ItemIs(item: Item, text: bool) {
    item.Filled? ==> if text then item.slot.v.Str? else item.slot.v.Number?
  }

  predicate ItemsAre(h: Heap, arg: Arg, text: bool) {
    var heap := if arg.Cloned? then arg.heap else h;
    IsList(heap, arg.v) && forall item :: item in Lookup(heap, arg.v.ref).items ==> ItemIs(item, text)
  }

  /** `validate`'s type test. */
  predicate TypeOk(h: Heap, kind: ParamType, arg: Arg) {
    match kind
    case StringT => arg.Plain? && arg.v.Str?
    case NumberT => arg.Plain? && arg.v.Number?
    case BooleanT => arg.Plain? && arg.v.Bool?
    case StringsT => ItemsAre(h, arg, true)
    case NumbersT => ItemsAre(h, arg, false)
    case JsonT => true
  }

  predicate Missing(arg: Arg) {
    arg == Plain(Undefined) || arg == Plain(Null)
  }

  predicate OptionOk(p: ParamSpec, arg: Arg) {
    p.kind.StringT? && p.options.Some? && arg.Plain? && arg.v.Str? ==> arg.v.s in p.options.value
  }

  predicate ParamOk(h: Heap, p: ParamSpec, arg: Arg) {
    if Missing(arg) then !p.required else TypeOk(h, p.kind, arg) && OptionOk(p, arg)
  }

  /** `validate` finds nothing wrong. */
  predicate ArgsOk(h: Heap, command: Command, args: Args) {
    command.handlerOwnsParams ||
    ((forall key :: key in args ==> Visible(command.params, key))
     && (forall key :: key in command.params ==> ParamOk(h, command.params[key], ArgAt(args, key))))
  }

  /** Defaults for the parameters still undefined. */
  function WithDefaults(command: Command, args: Args): Args {
    args + map key | key in command.params && ArgAt(args, key) == Plain(Undefined) && !command.params[key].default.Undefined?
      :: Plain(command.params[key].default)
  }

  // ---------------------------------------------------------------- the parts by themselves

  ghost predicate RequiresOnly(command: Command, key: string) {
    forall k :: (k in command.params && command.params[k].required) <==> k == key
  }

  /** A lone value is meant for this parameter. */
  ghost predicate IsMeant(command: Command, key: string) {
    && key != "" && Visible(command.params, key)
    && (command.primary == Some(key) || (command.primary.None? && RequiresOnly(command, key)))
  }

  /** The value as the type of the parameter it is meant for. */
  predicate IsConverted(env: Env, command: Command, key: string, arg: Arg, to: Arg) {
    match if key in command.params then command.params[key].kind else JsonT
    case NumberT => to == Plain(Number(env.toNumber(arg)))
    case BooleanT => to == Plain(Bool(arg in {Plain(Bool(true)), Plain(Str("true"))}))
    case _ => to == arg
  }

  /** A value sent alone under `_` goes to the primary parameter, or without one to the only required one, in
      its type; all other arguments stay as they are. */
  lemma {:induction false} ShorthandExactly(env: Env, command: Command, args: Args, key: string)
    ensures args.Keys != {"_"} ==> Rewritten(env, command, args) == args
    ensures args.Keys == {"_"} && IsMeant(command, key) ==>
      exists to :: Rewritten(env, command, args) == map[key := to] && IsConverted(env, command, key, args["_"], to)
    ensures args.Keys == {"_"} && !(exists k :: IsMeant(command, k)) ==> Rewritten(env, command, args) == args
  {
    var required := set k | k in command.params && command.params[k].required;
    if args.Keys == {"_"} && command.primary.None? {
      if RequiresOnly(command, key) { assert required == {key}; }
      if |required| == 1 {
        var only :| only in required;
        assert required == {only} by { OnlyElement(required, only); }
        forall k ensures (k in command.params && command.params[k].required) <==> k == only {
          assert k in required <==> k == only;
        }
        assert RequiresOnly(command, only);
        assert only != "" ==> IsMeant(command, only);
      }
    }
    if Rewrites(command, args) {
      var target := ShorthandTarget(command).value;
      assert IsMeant(command, target);
      assert IsConverted(env, command, target, args["_"], Converted(env, command, target, args["_"]));
    }
  }

  lemma OnlyElement<T>(s: set<T>, x: T)
    requires x in s && |s| == 1
    ensures s == {x}
  {
    assert |s - {x}| == 0;
  }

  /** A default takes the place of an undefined parameter, and of nothing else. */
  lemma DefaultsExactly(command: Command, args: Args, key: string)
    ensures ArgAt(WithDefaults(command, args), key) ==
      if key in command.params && ArgAt(args, key) == Plain(Undefined) then Plain(command.params[key].default)
      else ArgAt(args, key)
  {
  }

  /** An array of strings, an array of numbers and an object. */
  const SAMPLES: Heap := [
    List([Filled(Data(Str("a"), true))], 0, true),
    List([Filled(Data(Number(Finite(1.0)), true))], 0, true),
    Record([])]

  function SampleOf(kind: ParamType): Value {
    match kind
    case StringT => Str("a") case NumberT => Number(Finite(1.0)) case BooleanT => Bool(true)
    case StringsT => Obj(0) case NumbersT => Obj(1) case JsonT => Obj(2)
  }

  lemma SampleItems(h: Heap)
    requires h == SAMPLES
    ensures ItemsAre(h, Plain(Obj(0)), true) && !ItemsAre(h, Plain(Obj(0)), false)
    ensures ItemsAre(h, Plain(Obj(1)), false) && !ItemsAre(h, Plain(Obj(1)), true) && !IsList(h, Obj(2))
  {
    var text, number := h[0].items[0], h[1].items[0];
    assert text in h[0].items && !ItemIs(text, false) && number in h[1].items && !ItemIs(number, true);
  }

  /** Every type takes its own values and no other's, but JSON takes all. */
  lemma TypesTellApart(h: Heap, kind: ParamType, other: ParamType)
    requires h == SAMPLES
    ensures TypeOk(h, kind, Plain(SampleOf(other))) <==> kind == other || kind == JsonT
  {
    SampleItems(h);
  }

  /** A string parameter takes strings, of its enum if it has one, and does without when it may. */
  lemma StringParamTakes(h: Heap, p: ParamSpec, v: Value)
    requires p.kind == StringT
    ensures ParamOk(h, p, Plain(v)) <==>
      if v == Undefined || v == Null then !p.required
      else v.Str? && match p.options case None => true case Some(options) => v.s in options
  {
  }

  // ---------------------------------------------------------------- what validation lets through

  /** What validation is for: only declared parameters, each one given well, and every required one given. */
  predicate WellGiven(h: Heap, command: Command, args: Args) {
    && (forall key :: key in args ==> key in command.params)
    && (forall key :: key in command.params ==>
          if key in args then ParamOk(h, command.params[key], args[key]) else !command.params[key].required)
  }

  /** The same, apart from names that Object.prototype has. */
  predicate WellGivenApart(h: Heap, command: Command, args: Args) {
    && (forall key :: key in args ==> Visible(command.params, key))
    && (forall key :: key in command.params ==>
          if key in args then ParamOk(h, command.params[key], args[key])
          else key in INHERITED_NAMES || !command.params[key].required)
  }

  /** An argument nobody declared, under a name that lookup finds on Object.prototype. */
  predicate HasUndeclared(command: Command, args: Args) {
    exists key :: key in args && key in INHERITED_NAMES && key !in command.params
  }

  /** A parameter that is not given, under such a name: lookup takes the prototype's member for its value. */
  predicate LooksGiven(command: Command, args: Args, key: string) {
    key in command.params && key !in args && key in INHERITED_NAMES
  }

  lemma {:induction false} ValidIsApart(h: Heap, command: Command, args: Args)
    requires !command.handlerOwnsParams
    ensures ArgsOk(h, command, args) <==>
      WellGivenApart(h, command, args) && !exists key :: LooksGiven(command, args, key) && !command.params[key].kind.JsonT?
  {
    if ArgsOk(h, command, args) {
      forall key | key in command.params
        ensures if key in args then ParamOk(h, command.params[key], args[key])
                else key in INHERITED_NAMES || !command.params[key].required
        ensures LooksGiven(command, args, key) ==> command.params[key].kind.JsonT?
      {
        assert ParamOk(h, command.params[key], ArgAt(args, key));
      }
    }
    if WellGivenApart(h, command, args)
       && !exists key :: LooksGiven(command, args, key) && !command.params[key].kind.JsonT?
    {
      forall key | key in command.params ensures ParamOk(h, command.params[key], ArgAt(args, key)) {
        assert LooksGiven(command, args, key) ==> command.params[key].kind.JsonT?;
      }
    }
  }

  /** Validation lets arguments through that it should refuse exactly when one of them is undeclared or a
      required parameter only looks given, and every parameter that looks given takes any JSON; it refuses
      what it should let through exactly when one that looks given, and none is required, takes less. */
  lemma {:induction false} ValidationExactly(h: Heap, command: Command, args: Args)
    requires !command.handlerOwnsParams
    ensures var undeclared := HasUndeclared(command, args);
      var skipped := exists key :: LooksGiven(command, args, key) && command.params[key].required;
      var mistaken := exists key :: LooksGiven(command, args, key) && !command.params[key].kind.JsonT?;
      && (ArgsOk(h, command, args) && !WellGiven(h, command, args) <==>
            WellGivenApart(h, command, args) && (undeclared || skipped) && !mistaken)
      && (WellGiven(h, command, args) && !ArgsOk(h, command, args) <==>
            WellGivenApart(h, command, args) && !undeclared && !skipped && mistaken)
  {
    ValidIsApart(h, command, args);
    var skipped := exists key :: LooksGiven(command, args, key) && command.params[key].required;
    assert WellGiven(h, command, args) <==> WellGivenApart(h, command, args) && !HasUndeclared(command, args) && !skipped by {
      if WellGivenApart(h, command, args) && !HasUndeclared(command, args) && !skipped {
        forall key | key in command.params && key !in args ensures !command.params[key].required {
          assert LooksGiven(command, args, key) ==> !command.params[key].required;
        }
      }
    }
  }

  /** No undeclared argument reaches a handler, and none with a requirement or a default is missing there,
      exactly when none of the two names is on Object.prototype. */
  lemma {:induction false} HandlerArgumentsExactly(h: Heap, command: Command, named: Args)
    requires ArgsOk(h, command, named) && !command.handlerOwnsParams
    ensures var args := WithDefaults(command, named);
      && ((forall key :: key in args ==> key in command.params) <==> !HasUndeclared(command, named))
      && ((forall key :: key in command.params && (command.params[key].required || !command.params[key].default.Undefined?)
             ==> key in args) <==>
          !exists key :: LooksGiven(command, named, key)
             && (command.params[key].required || !command.params[key].default.Undefined?))
  {
    var args := WithDefaults(command, named);
    forall key | key in command.params && key !in named && !LooksGiven(command, named, key)
      ensures !command.params[key].default.Undefined? ==> key in args
      ensures !command.params[key].required
    {
      assert ParamOk(h, command.params[key], ArgAt(named, key));
    }
    assert forall key :: LooksGiven(command, named, key) ==> key !in args;
    if HasUndeclared(command, named) {
      var key :| key in named && key in INHERITED_NAMES && key !in command.params;
      assert key in args;
    }
  }

  function CommandOf(params: map<string, ParamSpec>): Command {
    Command(params, None, false, false, None, None)
  }

  /** An argument `toString` passes a command without parameters. */
  lemma UndeclaredIsTaken()
    ensures ArgsOk([], CommandOf(map[]), map["toString" := Plain(Null)])
    ensures HasUndeclared(CommandOf(map[]), map["toString" := Plain(Null)])
  {
    assert "toString" in map["toString" := Plain(Null)];
  }

  /** A required JSON parameter `constructor` may be left out. */
  lemma RequiredIsSkipped()
    ensures var command := CommandOf(map["constructor" := ParamSpec(JsonT, true, None, Undefined)]);
      ArgsOk([], command, map[]) && !WellGiven([], command, map[])
  {
    var params := map["constructor" := ParamSpec(JsonT, true, None, Undefined)];
    assert "constructor" in params;
  }

  /** An optional string parameter `constructor` may not be left out. */
  lemma OptionalIsRefused()
    ensures var command := CommandOf(map["constructor" := ParamSpec(StringT, false, None, Undefined)]);
      WellGiven([], command, map[]) && !ArgsOk([], command, map[])
  {
    var params := map["constructor" := ParamSpec(StringT, false, None, Undefined)];
    assert "constructor" in params;
  }

  // ---------------------------------------------------------------- outcomes

  datatype Code =
    | AuthRequired | EntrypointRequired | CallForbidden | AuthorityForbidden | PermissionDenied | ContractDenied
    | AuthorityUnavailable | ResultInvalid | RegistryEmpty | UnknownCommand | InvalidParams | Internal

  /** A success, a failure the handler itself answered with, or one of the registry's own. */
  datatype Outcome =
    | Success(heap: Heap, data: Option<Value>)
    | Declined(text: string, heap: Heap, data: Option<Value>)
    | Failure(code: Code)

  /** What the handler did: it threw, or returned a value; building the message may throw as well. The heap
      holds every object the value can reach, so that a new object may take the next place in it. */
  datatype Answer = Threw | Returned(heap: Heap, v: Value, messageThrows: bool)

  /** The own fields of a returned object; what is returned beside objects has none. */
  function FieldsOf(h: Heap, v: Value): seq<Field> {
    if !v.Obj? then []
    else
      match Lookup(h, v.ref)
      case Record(fields) => fields
      case List(items, _, _) => IndexFields(items)
      case Foreign => []
  }

  function IndexFields(items: seq<Item>): seq<Field> {
    if |items| == 0 then []
    else
      var last := items[|items| - 1];
      IndexFields(items[..|items| - 1]) +
      if last.Hole? then [] else [Field(Name(Decimal(|items| - 1)), last.slot)]
  }

  predicate IsElement(items: seq<Item>, i: nat, f: Field) {
    i < |items| && items[i].Filled? && f == Field(Name(Decimal(i)), items[i].slot)
  }

  /** A returned array has its elements under their numbers, holes left out. */
  lemma {:induction false} ElementsAreFields(items: seq<Item>, f: Field)
    ensures f in IndexFields(items) <==> exists i: nat :: IsElement(items, i, f)
  {
    if |items| == 0 {
    } else {
      var n := |items| - 1;
      ElementsAreFields(items[..n], f);
      forall i: nat ensures IsElement(items, i, f) <==> IsElement(items[..n], i, f) || (i == n && IsElement(items, n, f)) {
      }
      assert f in IndexFields(items) <==> f in IndexFields(items[..n]) || IsElement(items, n, f);
    }
  }

  /** `const { ...reserved, ...rest } = raw`. */
  function Rest(fields: seq<Field>, reserved: set<string>): seq<Field> {
    if |fields| == 0 then []
    else
      var f, rest := fields[0], Rest(fields[1..], reserved);
      if !f.slot.enumerable || (f.key.Name? && f.key.s in reserved) then rest
      else [Field(f.key, Data(f.slot.v, true))] + rest
  }

  /** The names a successful answer keeps for the envelope, and a failing one. */
  function Reserved(command: Command, ok: bool): set<string> {
    {"ok", "code", "message", "data", if ok then "media" else "error"} + if command.service then {"hints"} else {}
  }

  /** Beside the four names of every envelope, media belong to a success, an error to a failure, and hints to
      the answer of a service; everything else is data. */
  lemma EnvelopeNames(command: Command, ok: bool, name: string)
    ensures name in Reserved(command, ok) <==>
      || name == "ok" || name == "code" || name == "message" || name == "data"
      || (name == "media" && ok) || (name == "error" && !ok) || (name == "hints" && command.service)
  {
  }

  /** `pickData`: a `data` object the handler names, else the remaining fields in a new object. */
  function Picked(h: Heap, fields: seq<Field>, reserved: set<string>): (Heap, Option<Value>) {
    var data, rest := Get(fields, "data"), Rest(fields, reserved);
    if data.Obj? then (h, Some(data))
    else if exists i :: 0 <= i < |rest| && rest[i].key.Name? then (h + [Record(rest)], Some(Obj(|h|)))
    else (h, None)
  }

  /** The code of a failing answer. */
  function DeclineCode(fields: seq<Field>): string {
    if Get(fields, "code").Str? then Get(fields, "code").s
    else if Get(fields, "error").Str? then Get(fields, "error").s
    else "INTERNAL"
  }

  /** `normalizeOutcome`. */
  function Normalized(command: Command, answer: Answer): Outcome {
    match answer
    case Threw => Failure(Internal)
    case Returned(h, v, messageThrows) =>
      var fields := FieldsOf(h, v);
      if Get(fields, "ok") == Bool(false) then
        var (heap, data) := Picked(h, fields, Reserved(command, false));
        Declined(DeclineCode(fields), heap, data)
      else if messageThrows then Failure(Internal)
      else
        var (heap, data) := Picked(h, fields, Reserved(command, true));
        Success(heap, data)
  }

  /** The handler's field, or symbol, ends up in the data. */
  predicate Remains(f: Field, reserved: set<string>) {
    f.slot.enumerable && !(f.key.Name? && f.key.s in reserved)
  }

  function AsData(f: Field): Field {
    Field(f.key, Data(f.slot.v, true))
  }

  /** `f` is what becomes of one of the handler's fields. */
  predicate Kept(fields: seq<Field>, reserved: set<string>, f: Field) {
    exists i :: 0 <= i < |fields| && Remains(fields[i], reserved) && AsData(fields[i]) == f
  }

  lemma {:induction false} RestIsWhatRemains(fields: seq<Field>, reserved: set<string>)
    ensures forall f :: f in Rest(fields, reserved) <==> Kept(fields, reserved, f)
  {
    if |fields| == 0 {
    } else {
      var tail := fields[1..];
      RestIsWhatRemains(tail, reserved);
      forall f ensures Kept(fields, reserved, f) <==>
                       Kept(tail, reserved, f) || (Remains(fields[0], reserved) && AsData(fields[0]) == f)
      {
        if Kept(tail, reserved, f) {
          var i :| 0 <= i < |tail| && Remains(tail[i], reserved) && AsData(tail[i]) == f;
          assert fields[i + 1] == tail[i];
        }
        if Kept(fields, reserved, f) {
          var i :| 0 <= i < |fields| && Remains(fields[i], reserved) && AsData(fields[i]) == f;
          if i > 0 { assert tail[i - 1] == fields[i]; }
        }
      }
    }
  }

  /** The data of an answer: the object the handler named, or a new one with exactly what remains beside the
      reserved names, or nothing when nothing remains. The handler's own objects are left alone. */
  ghost predicate Carries(h: Heap, fields: seq<Field>, reserved: set<string>, heap: Heap, data: Option<Value>) {
    && h <= heap
    && (Get(fields, "data").Obj? ==> data == Some(Get(fields, "data")))
    && (!Get(fields, "data").Obj? ==>
          && (data.Some? <==> exists f :: Kept(fields, reserved, f) && f.key.Name?)
          && (data.Some? ==>
                && data.value == Obj(|h|) && IsRecord(heap, data.value)
                && forall f :: f in Lookup(heap, |h|).fields <==> Kept(fields, reserved, f)))
  }

  lemma {:induction false} PickedCarries(h: Heap, fields: seq<Field>, reserved: set<string>)
    ensures var (heap, data) := Picked(h, fields, reserved); Carries(h, fields, reserved, heap, data)
  {
    var rest := Rest(fields, reserved);
    RestIsWhatRemains(fields, reserved);
    if exists i :: 0 <= i < |rest| && rest[i].key.Name? {
      var i :| 0 <= i < |rest| && rest[i].key.Name?;
      assert rest[i] in rest;
    }
    if exists f :: Kept(fields, reserved, f) && f.key.Name? {
      var f :| Kept(fields, reserved, f) && f.key.Name?;
      var i :| 0 <= i < |rest| && rest[i] == f;
    }
  }

  /** An answer is declined exactly when it says `ok: false`, with its own code, its error text for one, or
      "INTERNAL"; it fails exactly when its message threw. What it carries goes by the reserved names of its
      kind, of which only a failing answer's "media" and a successful one's "error" are data. */
  lemma {:induction false} OutcomeCarriesWhatRemains(command: Command, h: Heap, v: Value, messageThrows: bool)
    ensures var out, fields := Normalized(command, Returned(h, v, messageThrows)), FieldsOf(h, v);
      && (out.Declined? <==> Get(fields, "ok") == Bool(false))
      && (out.Failure? <==> messageThrows && Get(fields, "ok") != Bool(false))
      && (out.Success? ==> Carries(h, fields, Reserved(command, true), out.heap, out.data))
      && (out.Declined? ==>
            && Carries(h, fields, Reserved(command, false), out.heap, out.data)
            && (Get(fields, "code").Str? ==> Get(fields, "code") == Str(out.text))
            && (!Get(fields, "code").Str? && Get(fields, "error").Str? ==> Get(fields, "error") == Str(out.text))
            && (!Get(fields, "code").Str? && !Get(fields, "error").Str? ==> out.text == "INTERNAL"))
  {
    PickedCarries(h, FieldsOf(h, v), Reserved(command, true));
    PickedCarries(h, FieldsOf(h, v), Reserved(command, false));
  }

  /** The success carries data that is legal for the schema; absent data counts as `{}`. */
  ghost predicate Conforms(schema: Schema, outcome: Outcome)
    requires outcome.Success?
  {
    match outcome.data
    case Some(v) => Legal(outcome.heap, Position(Of(schema), v))
    case None => Legal(outcome.heap + [Record([])], Position(Of(schema), Obj(|outcome.heap|)))
  }
}
