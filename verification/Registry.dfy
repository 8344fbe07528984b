/** The registry object of src/commands/registry.ts, method by method, refining the machine of
    `Broker`: each method leaves the object in the state `Step` gives. */
module Registry {
  import opened JsValues
  import opened MachineSchema
  import opened ResultCheck
  import opened ResultMeaning
  import opened CommandModel
  import opened Broker
  import CoordinateCheck

  lemma {:induction false} CertifiesIsFunctional(
    env: Env, h: Heap, command: Command, draft: BrokerDraft, a: BrokerSpec, b: BrokerSpec)
    requires Certifies(env, h, command, draft, a) && Certifies(env, h, command, draft, b)
    ensures a == b
  {
    DenotesIsFunctional(h, draft.result, a.result, b.result);
  }

  /** The authority loop of `certifyBrokerSpec`. */
  method CertifyAuthority(params: map<string, ParamSpec>, bindings: seq<Binding>)
    returns (errors: nat, authority: seq<Binding>)
    ensures errors == 0 <==> AuthorityOk(params, bindings)
    ensures errors == 0 ==> authority == bindings
  {
    errors, authority := 0, [];
    var bound: set<string> := {};
    var i := 0;
    while i < |bindings|
      invariant 0 <= i <= |bindings|
      invariant errors == 0 <==> AuthorityOk(params, bindings[..i])
      invariant errors == 0 ==> authority == bindings[..i]
      invariant errors == 0 ==> bound == set j | 0 <= j < i :: bindings[j].param
    {
      var b := bindings[i];
      assert bindings[..i + 1] == bindings[..i] + [b];
      assert bindings[..i + 1][i] == b;
      assert forall j :: 0 <= j < i ==> bindings[..i + 1][j] == bindings[..i][j];
      var keyed := b.source.Path? || b.source.Label? || b.source.Coordinates?;
      if keyed && b.source.key == "" {
        errors := errors + 1;
      } else if b.param == "" || b.param in UNSAFE_KEYS || b.param !in params {
        errors := errors + 1;
      } else if b.param in bound {
        errors := errors + 1;
      } else if params[b.param].kind != SourceType(b.source) {
        errors := errors + 1;
      } else {
        bound := bound + {b.param};
        authority := authority + [b];
      }
      i := i + 1;
    }
    assert bindings[..i] == bindings;
  }

  /** `certifyBrokerSpec`. */
  method CertifyBroker(env: Env, h: Heap, command: Command, draft: BrokerDraft) returns (ok: bool, broker: BrokerSpec)
    ensures ok <==> exists b :: Certifies(env, h, command, draft, b)
    ensures ok ==> Certifies(env, h, command, draft, broker)
  {
    var errors, authority := CertifyAuthority(command.params, draft.authority);
    if !PermissionsOk(env, draft.permissions, command.danger) { errors := errors + 1; }
    if !ContractsOk(draft.needs, draft.offers) { errors := errors + 1; }
    var schemaErrors, schema := Certify(h, draft.result);
    errors := errors + schemaErrors;
    if IsRecord(h, draft.result) && Get(Lookup(h, draft.result.ref).fields, "type") != Str("object") { errors := errors + 1; }
    ok := errors == 0;
    broker := BrokerSpec(draft.permissions, draft.needs, draft.offers, authority, schema);
    forall s: Schema | Denotes(h, draft.result, s)
      ensures s.ObjectS? <==> Get(Lookup(h, draft.result.ref).fields, "type") == Str("object")
    {
      ObjectTypeIsObject(h, draft.result, s);
    }
    if ok {
      assert schema.ObjectS?;
      assert Certifies(env, h, command, draft, broker);
    }
    if exists b :: Certifies(env, h, command, draft, b) {
      var b :| Certifies(env, h, command, draft, b);
      assert ResultSchemaIs(h, draft.result, b.result);
      assert schemaErrors == 0;
      assert errors == 0;
    }
  }

  lemma ObjectTypeIsObject(h: Heap, v: Value, s: Schema)
    requires Denotes(h, v, s)
    ensures IsRecord(h, v) && (s.ObjectS? <==> Get(Lookup(h, v.ref).fields, "type") == Str("object"))
  {
  }

  predicate SameAt(a: Args, b: Args, key: string) {
    (key in a <==> key in b) && (key in a ==> a[key] == b[key])
  }

  class CommandRegistry {
    const env: Env
    var commands: map<string, Command>
    var issued: map<nat, Identity>
    var gate: set<Danger>
    ghost var calls: seq<Call>
    ghost var replies: seq<Reply>

    ghost function View(): State
      reads this
    {
      State(commands, issued, gate, calls, replies)
    }

    constructor (env: Env)
      ensures this.env == env && View() == INITIAL
    {
      this.env := env;
      commands, issued, gate := map[], map[], {Destructive, CommandModel.Danger.Inject};
      calls, replies := [], [];
    }

    method DoRegister(name: string, command: Command, h: Heap, draft: Option<BrokerDraft>) returns (ok: bool)
      modifies this
      ensures View() == Step(env, old(View()), Event.Register(name, command, h, draft))
      ensures ok <==> View() != old(View())
    {
      if name in commands { return false; }
      var broker: Option<BrokerSpec> := None;
      if draft.Some? {
        var certified, b := CertifyBroker(env, h, command, draft.value);
        if !certified { return false; }
        broker := Some(b);
        forall c | Certifies(env, h, command, draft.value, c) ensures c == b {
          CertifiesIsFunctional(env, h, command, draft.value, b, c);
        }
      }
      commands := commands[name := command.(broker := broker)];
      ok := true;
    }

    method DoUnregister(name: string) returns (existed: bool)
      modifies this`commands
      ensures View() == Step(env, old(View()), Event.Unregister(name))
      ensures existed <==> name in old(commands)
    {
      existed := name in commands;
      commands := commands - {name};
    }

    /** `issuePluginCommandContext`: `token` is the identity of the fresh, frozen context object. */
    method DoIssue(token: nat, who: Identity) returns (ok: bool)
      modifies this`issued
      ensures View() == Step(env, old(View()), Event.Issue(token, who))
      ensures ok <==> token !in old(issued) && IdentityOk(env, who)
    {
      var errors := CoordinateCheck.CheckCoordinates(who.heap, who.coordinates);
      ok := token !in issued && PrincipalOk(env, who) && errors == 0;
      if ok { issued := issued[token := who]; }
    }

    method SetPermissionGate(open: set<Danger>)
      modifies this`gate
      ensures View() == Step(env, old(View()), SetGate(open))
    {
      gate := open;
    }

    /** The shorthand block at the head of `executeInner`. */
    method Rewrite(command: Command, args: Args) returns (named: Args)
      ensures named == Rewritten(env, command, args)
    {
      named := args;
      if args.Keys == {"_"} {
        var required := set key | key in command.params && command.params[key].required;
        var key := "";
        if command.primary.Some? {
          key := command.primary.value;
        } else if |required| == 1 {
          key :| key in required;
          assert required == {key} by { OnlyMember(required, key); }
        }
        if key != "" && Visible(command.params, key) {
          named := map[key := Converted(env, command, key, args["_"])];
        }
      }
    }

    /** `validate`. */
    method Validate(h: Heap, command: Command, args: Args) returns (ok: bool)
      ensures ok <==> ArgsOk(h, command, args)
    {
      if command.handlerOwnsParams { return true; }
      var given := args.Keys;
      while given != {}
        invariant given <= args.Keys
        invariant forall key :: key in args && key !in given ==> Visible(command.params, key)
        decreases given
      {
        var key :| key in given;
        if !Visible(command.params, key) { return false; }
        given := given - {key};
      }
      var declared := command.params.Keys;
      while declared != {}
        invariant declared <= command.params.Keys
        invariant forall key :: key in command.params && key !in declared ==> ParamOk(h, command.params[key], ArgAt(args, key))
        decreases declared
      {
        var key :| key in declared;
        var p, v := command.params[key], ArgAt(args, key);
        if Missing(v) {
          if p.required { return false; }
        } else if !TypeOk(h, p.kind, v) || !OptionOk(p, v) {
          return false;
        }
        declared := declared - {key};
      }
      ok := true;
    }

    /** The loop that fills in defaults. */
    method FillDefaults(command: Command, args: Args) returns (filled: Args)
      ensures filled == WithDefaults(command, args)
    {
      filled := args;
      ghost var full := WithDefaults(command, args);
      var declared := command.params.Keys;
      while declared != {}
        invariant declared <= command.params.Keys
        invariant forall key :: key in declared ==> SameAt(filled, args, key)
        invariant forall key :: key !in declared ==> SameAt(filled, full, key)
        decreases declared
      {
        var key :| key in declared;
        if ArgAt(filled, key) == Plain(Undefined) && !command.params[key].default.Undefined? {
          filled := filled[key := Plain(command.params[key].default)];
        }
        declared := declared - {key};
      }
      forall key | key in full ensures key in filled && filled[key] == full[key] { assert SameAt(filled, full, key); }
      forall key | key in filled ensures key in full { assert SameAt(filled, full, key); }
      assert filled == full;
    }

    /** `executeInner`. */
    method ExecuteInner(name: string, h: Heap, args: Args, plugin: Option<Identity>, remote: bool, answer: Answer)
      returns (outcome: Outcome)
      modifies this`calls
      ensures outcome == Run(env, old(View()), name, h, args, plugin, remote, answer).0
      ensures calls == Logged(old(calls), Run(env, old(View()), name, h, args, plugin, remote, answer).1)
    {
      if name !in commands { return Absent(commands); }
      var command := commands[name];
      var named := Rewrite(command, args);
      var valid := Validate(h, command, named);
      if !valid { return Failure(InvalidParams); }
      if remote && command.danger.Some? && command.danger.value !in gate { return Failure(PermissionDenied); }
      var filled := FillDefaults(command, named);
      calls := calls + [Call(name, command, filled, plugin, remote, gate)];
      outcome := Normalized(command, answer);
    }

    /** `execute`: a context that carries a plugin identity may not enter here. */
    method Execute(name: string, h: Heap, args: Args, claimsPlugin: bool, remote: bool, answer: Answer)
      returns (outcome: Outcome)
      modifies this`calls
      ensures View() == Step(env, old(View()), HostCall(name, h, args, claimsPlugin, remote, answer))
      ensures claimsPlugin ==> outcome == Failure(EntrypointRequired)
      ensures !claimsPlugin ==> outcome == Run(env, old(View()), name, h, args, None, remote, answer).0
    {
      if claimsPlugin { return Failure(EntrypointRequired); }
      outcome := ExecuteInner(name, h, args, None, remote, answer);
    }

    /** The injection loop of `executePluginInner`; None when the host lacks a value. */
    method InjectAuthority(args: Args, authority: seq<Binding>, who: Identity) returns (injected: Option<Args>)
      ensures injected ==
        if Available(authority, who) then Some(WithAuthority(args, authority, who)) else None
    {
      var all, i := args, 0;
      while i < |authority|
        invariant 0 <= i <= |authority|
        invariant Available(authority[..i], who) && all == WithAuthority(args, authority[..i], who)
      {
        var resolved := HostValue(authority[i].source, who);
        if resolved.None? { return None; }
        assert authority[..i + 1][..i] == authority[..i] && authority[..i + 1][i] == authority[i];
        assert forall j :: 0 <= j < i ==> authority[..i + 1][j] == authority[..i][j];
        all := all[authority[i].param := resolved.value];
        i := i + 1;
      }
      assert authority[..i] == authority;
      injected := Some(all);
    }

    /** `executeFromPlugin`. */
    method ExecuteFromPlugin(token: nat, name: string, h: Heap, given: Option<Args>, answer: Answer)
      returns (outcome: Outcome)
      modifies this`calls, this`replies
      ensures outcome == RunForPlugin(env, old(View()), token, name, h, given, answer).0
      ensures View() == Step(env, old(View()), PluginCall(token, name, h, given, answer))
    {
      outcome := RunPluginChannel(token, name, h, given, answer);
      if name in commands { replies := replies + [Reply(commands[name], outcome)]; }
    }

    /** `executePluginInner`. */
    method RunPluginChannel(token: nat, name: string, h: Heap, given: Option<Args>, answer: Answer)
      returns (outcome: Outcome)
      modifies this`calls
      ensures outcome == RunForPlugin(env, old(View()), token, name, h, given, answer).0
      ensures calls == Logged(old(calls), RunForPlugin(env, old(View()), token, name, h, given, answer).1)
    {
      if token !in issued { return Failure(AuthRequired); }
      if name !in commands { return Absent(commands); }
      if commands[name].broker.None? { return Failure(CallForbidden); }
      if given.None? { return Failure(InvalidParams); }
      var b, who := commands[name].broker.value, issued[token];
      if NamesBound(b, given.value) { return Failure(AuthorityForbidden); }
      if !PermissionsGranted(b, who) { return Failure(PermissionDenied); }
      if !ContractsMet(env, b, who) { return Failure(ContractDenied); }
      var injected := InjectAuthority(given.value, b.authority, who);
      if injected.None? { return Failure(AuthorityUnavailable); }
      outcome := ExecuteInner(name, h, injected.value, Some(who), true, answer);
      if outcome.Success? {
        var heap, data := outcome.heap, outcome.data;
        if data.None? { heap, data := heap + [Record([])], Some(Obj(|heap|)); }
        var violations := CheckResult(heap, b.result, data.value);
        if violations > 0 { outcome := Failure(ResultInvalid); }
      }
    }
  }

  lemma OnlyMember<T>(s: set<T>, x: T)
    requires x in s && |s| == 1
    ensures s == {x}
  {
    assert |s - {x}| == 0;
  }
}
