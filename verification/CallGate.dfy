/** Exactly when the registry calls a handler, and what it answers when it does not (src/commands/registry.ts):
    what can stand in the way, each told by itself, and in which order it is told to the caller. */
module CallGate {
  import opened JsValues
  import opened ResultCheck
  import opened CommandModel
  import opened Broker

  // ---------------------------------------------------------------- the plugin channel

  /** In the order the caller is told of them. */
  datatype Obstacle =
    | NotIssued | NotRegistered | NotOffered | NotAnObject | NamesHostParameter
    | PermissionMissing | ContractUnmet | HostValueMissing | ArgumentsInvalid | GateClosed

  function Rank(o: Obstacle): nat {
    match o
    case NotIssued => 0 case NotRegistered => 1 case NotOffered => 2 case NotAnObject => 3
    case NamesHostParameter => 4 case PermissionMissing => 5 case ContractUnmet => 6
    case HostValueMissing => 7 case ArgumentsInvalid => 8 case GateClosed => 9
  }

  function CodeOf(st: State, o: Obstacle): Code {
    match o
    case NotIssued => AuthRequired
    case NotRegistered => if st.commands == map[] then RegistryEmpty else UnknownCommand
    case NotOffered => CallForbidden
    case NotAnObject => InvalidParams
    case NamesHostParameter => AuthorityForbidden
    case PermissionMissing => PermissionDenied
    case ContractUnmet => ContractDenied
    case HostValueMissing => AuthorityUnavailable
    case ArgumentsInvalid => InvalidParams
    case GateClosed => PermissionDenied
  }

  /** A plugin's call as it reaches the registry. */
  datatype Request = Request(token: nat, name: string, heap: Heap, given: Option<Args>)

  predicate IsOffered(st: State, name: string) {
    name in st.commands && st.commands[name].broker.Some?
  }

  /** The same contract, in a version the range takes. */
  predicate Fits(env: Env, need: Requirement, provider: Provider) {
    provider.id == need.id && env.semverSatisfies(provider.version, need.range)
  }

  ghost predicate Unmet(env: Env, b: BrokerSpec, who: Identity) {
    || (exists need :: need in b.needs && forall p :: p in who.provided ==> !Fits(env, need, p))
    || (exists offer :: offer in b.offers && forall r :: r in who.required ==> !Fits(env, r, offer))
  }

  /** What the handler would get, apart from defaults. */
  ghost function Meant(env: Env, st: State, q: Request): Args
    requires q.token in st.issued && IsOffered(st, q.name) && q.given.Some?
    requires Available(st.commands[q.name].broker.value.authority, st.issued[q.token])
  {
    var command := st.commands[q.name];
    Rewritten(env, command, WithAuthority(q.given.value, command.broker.value.authority, st.issued[q.token]))
  }

  ghost predicate Stands(env: Env, st: State, q: Request, o: Obstacle) {
    var issued, offered := q.token in st.issued, IsOffered(st, q.name);
    match o
    case NotIssued => !issued
    case NotRegistered => q.name !in st.commands
    case NotOffered => q.name in st.commands && st.commands[q.name].broker.None?
    case NotAnObject => q.given.None?
    case NamesHostParameter =>
      offered && q.given.Some? && exists b :: b in st.commands[q.name].broker.value.authority && b.param in q.given.value
    case PermissionMissing =>
      issued && offered &&
      exists p :: p in st.commands[q.name].broker.value.permissions && p !in st.issued[q.token].permissions
    case ContractUnmet => issued && offered && Unmet(env, st.commands[q.name].broker.value, st.issued[q.token])
    case HostValueMissing =>
      issued && offered &&
      exists b :: b in st.commands[q.name].broker.value.authority && HostValue(b.source, st.issued[q.token]).None?
    case ArgumentsInvalid =>
      issued && offered && q.given.Some?
      && Available(st.commands[q.name].broker.value.authority, st.issued[q.token])
      && !ArgsOk(q.heap, st.commands[q.name], Meant(env, st, q))
    case GateClosed =>
      q.name in st.commands && st.commands[q.name].danger.Some? && st.commands[q.name].danger.value !in st.gate
  }

  ghost predicate IsFree(env: Env, st: State, q: Request) {
    forall o :: !Stands(env, st, q, o)
  }

  /** Nothing before `o` is in the way. */
  ghost predicate FreeBefore(env: Env, st: State, q: Request, o: Obstacle) {
    forall e: Obstacle :: Rank(e) < Rank(o) ==> !Stands(env, st, q, e)
  }

  ghost function Answered(env: Env, st: State, q: Request, answer: Answer): (r: (Outcome, Option<Call>)) {
    RunForPlugin(env, st, q.token, q.name, q.heap, q.given, answer)
  }

  lemma {:induction false} NamesMeansBound(b: BrokerSpec, args: Args)
    ensures NamesBound(b, args) <==> exists x :: x in b.authority && x.param in args
  {
    if x :| x in b.authority && x.param in args {
      var i :| 0 <= i < |b.authority| && b.authority[i] == x;
    }
  }

  lemma {:induction false} GrantedMeansAll(b: BrokerSpec, who: Identity)
    ensures PermissionsGranted(b, who) <==> forall p :: p in b.permissions ==> p in who.permissions
  {
    if PermissionsGranted(b, who) {
      forall p | p in b.permissions ensures p in who.permissions {
        var i :| 0 <= i < |b.permissions| && b.permissions[i] == p;
      }
    }
  }

  lemma {:induction false} AvailableMeansAll(authority: seq<Binding>, who: Identity)
    ensures Available(authority, who) <==> forall b :: b in authority ==> HostValue(b.source, who).Some?
  {
    if Available(authority, who) {
      forall b | b in authority ensures HostValue(b.source, who).Some? {
        var i :| 0 <= i < |authority| && authority[i] == b;
      }
    }
  }

  lemma {:induction false} MetMeansBothWays(env: Env, b: BrokerSpec, who: Identity)
    ensures ContractsMet(env, b, who) <==> !Unmet(env, b, who)
  {
    forall need, p ensures Satisfies(env, need, p) <==> Fits(env, need, p) {
    }
    forall need ensures Provides(env, who.provided, need) <==> exists p :: p in who.provided && Fits(env, need, p) {
      if p :| p in who.provided && Fits(env, need, p) {
        var i :| 0 <= i < |who.provided| && who.provided[i] == p;
      }
    }
    forall offer ensures Requires(env, who.required, offer) <==> exists r :: r in who.required && Fits(env, r, offer) {
      if r :| r in who.required && Fits(env, r, offer) {
        var i :| 0 <= i < |who.required| && who.required[i] == r;
      }
    }
    if !ContractsMet(env, b, who) {
      if i :| 0 <= i < |b.needs| && !Provides(env, who.provided, b.needs[i]) {
        assert b.needs[i] in b.needs;
      } else {
        var i :| 0 <= i < |b.offers| && !Requires(env, who.required, b.offers[i]);
        assert b.offers[i] in b.offers;
      }
    }
  }

  /** The registry's own tests see just these obstacles. */
  lemma {:induction false} TestsSeeObstacles(env: Env, st: State, q: Request)
    requires q.token in st.issued && IsOffered(st, q.name) && q.given.Some?
    ensures var command, who := st.commands[q.name], st.issued[q.token];
      var b := command.broker.value;
      && (NamesBound(b, q.given.value) <==> Stands(env, st, q, NamesHostParameter))
      && (PermissionsGranted(b, who) <==> !Stands(env, st, q, PermissionMissing))
      && (ContractsMet(env, b, who) <==> !Stands(env, st, q, ContractUnmet))
      && (Available(b.authority, who) <==> !Stands(env, st, q, HostValueMissing))
      && (Available(b.authority, who) ==>
            (ArgsOk(q.heap, command, Meant(env, st, q)) <==> !Stands(env, st, q, ArgumentsInvalid)))
  {
    var b, who := st.commands[q.name].broker.value, st.issued[q.token];
    NamesMeansBound(b, q.given.value);
    GrantedMeansAll(b, who);
    MetMeansBothWays(env, b, who);
    AvailableMeansAll(b.authority, who);
  }

  lemma {:induction false} NoneBefore(env: Env, st: State, q: Request, o: Obstacle)
    requires FreeBefore(env, st, q, o)
    ensures Rank(o) > 0 ==> !Stands(env, st, q, NotIssued)
    ensures Rank(o) > 1 ==> !Stands(env, st, q, NotRegistered)
    ensures Rank(o) > 2 ==> !Stands(env, st, q, NotOffered)
    ensures Rank(o) > 3 ==> !Stands(env, st, q, NotAnObject)
    ensures Rank(o) > 4 ==> !Stands(env, st, q, NamesHostParameter)
    ensures Rank(o) > 5 ==> !Stands(env, st, q, PermissionMissing)
    ensures Rank(o) > 6 ==> !Stands(env, st, q, ContractUnmet)
    ensures Rank(o) > 7 ==> !Stands(env, st, q, HostValueMissing)
    ensures Rank(o) > 8 ==> !Stands(env, st, q, ArgumentsInvalid)
  {
  }

  /** The caller is told of the first obstacle, by its own code, and no handler is called. */
  lemma {:induction false} FirstObstacleAnswers(env: Env, st: State, q: Request, answer: Answer, o: Obstacle)
    requires Stands(env, st, q, o) && FreeBefore(env, st, q, o)
    ensures Answered(env, st, q, answer) == (Failure(CodeOf(st, o)), None)
  {
    NoneBefore(env, st, q, o);
    if Rank(o) > 3 { TestsSeeObstacles(env, st, q); }
  }

  /** Where something stands in the way, something stands first. */
  lemma {:induction false} SomeObstacleIsFirst(env: Env, st: State, q: Request, o: Obstacle) returns (first: Obstacle)
    requires Stands(env, st, q, o)
    ensures Stands(env, st, q, first) && FreeBefore(env, st, q, first)
    decreases Rank(o)
  {
    first := o;
    if e: Obstacle :| Rank(e) < Rank(o) && Stands(env, st, q, e) { first := SomeObstacleIsFirst(env, st, q, e); }
  }

  /** The handler is called exactly when nothing stands in the way: once, for the caller, with the arguments
      meant, and the answer is then the handler's own unless its data breaks the schema. */
  lemma {:induction false} FreeCallIsMade(env: Env, st: State, q: Request, answer: Answer)
    requires IsFree(env, st, q)
    ensures q.token in st.issued && IsOffered(st, q.name) && q.given.Some?
    ensures Available(st.commands[q.name].broker.value.authority, st.issued[q.token])
    ensures var command := st.commands[q.name];
      var own := Normalized(command, answer);
      var call := Call(q.name, command, WithDefaults(command, Meant(env, st, q)), Some(st.issued[q.token]), true, st.gate);
      Answered(env, st, q, answer) ==
        (if own.Success? && !Conforms(command.broker.value.result, own) then Failure(ResultInvalid) else own, Some(call))
  {
    assert !Stands(env, st, q, NotIssued) && !Stands(env, st, q, NotRegistered) && !Stands(env, st, q, NotOffered);
    assert !Stands(env, st, q, NotAnObject);
    TestsSeeObstacles(env, st, q);
    assert !Stands(env, st, q, GateClosed);
  }

  lemma {:induction false} PluginCallExactly(env: Env, st: State, q: Request, answer: Answer)
    ensures var after := Step(env, st, PluginCall(q.token, q.name, q.heap, q.given, answer));
      && (IsFree(env, st, q) <==> |after.calls| == |st.calls| + 1)
      && (!IsFree(env, st, q) <==> after.calls == st.calls)
  {
    if IsFree(env, st, q) {
      FreeCallIsMade(env, st, q, answer);
    } else {
      var o :| Stands(env, st, q, o);
      o := SomeObstacleIsFirst(env, st, q, o);
      FirstObstacleAnswers(env, st, q, answer, o);
    }
  }

  // ---------------------------------------------------------------- the host's own calls

  /** What stands in the way of a host call that does not pretend to be a plugin's. */
  ghost predicate StopsHost(
    env: Env, st: State, name: string, h: Heap, args: Args, remote: bool, o: Obstacle)
  {
    match o
    case NotRegistered => name !in st.commands
    case ArgumentsInvalid => name in st.commands && !ArgsOk(h, st.commands[name], Rewritten(env, st.commands[name], args))
    case GateClosed =>
      remote && name in st.commands && st.commands[name].danger.Some? && st.commands[name].danger.value !in st.gate
    case _ => false
  }

  /** Each has its code, and the first is told. */
  lemma {:induction false} FirstStopAnswers(
    env: Env, st: State, name: string, h: Heap, args: Args, remote: bool, answer: Answer, o: Obstacle)
    requires StopsHost(env, st, name, h, args, remote, o)
    requires forall e: Obstacle :: Rank(e) < Rank(o) ==> !StopsHost(env, st, name, h, args, remote, e)
    ensures Run(env, st, name, h, args, None, remote, answer) == (Failure(CodeOf(st, o)), None)
  {
    assert Rank(o) > 8 ==> !StopsHost(env, st, name, h, args, remote, ArgumentsInvalid);
  }

  /** A host call gets to its handler, once and with the arguments meant, exactly when it does not pretend to
      be a plugin's and nothing stops it: from inside, no gate does. */
  lemma {:induction false} HostCallExactly(
    env: Env, st: State, name: string, h: Heap, args: Args, claimsPlugin: bool, remote: bool, answer: Answer)
    ensures var after := Step(env, st, HostCall(name, h, args, claimsPlugin, remote, answer));
      if !claimsPlugin && forall o :: !StopsHost(env, st, name, h, args, remote, o) then
        && name in st.commands
        && var filled := WithDefaults(st.commands[name], Rewritten(env, st.commands[name], args));
        after.calls == st.calls + [Call(name, st.commands[name], filled, None, remote, st.gate)]
      else after.calls == st.calls
  {
    if name !in st.commands {
      assert StopsHost(env, st, name, h, args, remote, NotRegistered);
    } else if Run(env, st, name, h, args, None, remote, answer).1.None? {
      assert StopsHost(env, st, name, h, args, remote, ArgumentsInvalid)
        || StopsHost(env, st, name, h, args, remote, GateClosed);
    }
  }
}
