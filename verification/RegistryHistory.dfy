/** What the registry holds, told from what happened to it (src/commands/registry.ts): the first registration of a
    name since it was last taken back stays, an issued context never changes, and the last gate counts. */
module RegistryHistory {
  import opened JsValues
  import opened MachineSchema
  import opened ResultCheck
  import opened ResultMeaning
  import opened CommandModel
  import opened Broker
  import DefinitionMeaning

  // ---------------------------------------------------------------- commands

  /** This registration of the name holds water. */
  ghost predicate Takes(env: Env, ev: Event, name: string) {
    && ev.Register? && ev.name == name
    && (ev.draft.Some? ==> exists b :: Certifies(env, ev.heap, ev.command, ev.draft.value, b))
  }

  /** Event number `k` registered what stands under the name: nobody took the name back since, and every
      earlier registration of it was taken back before. */
  ghost predicate StandsSince(env: Env, events: seq<Event>, name: string, k: nat) {
    && k < |events| && Takes(env, events[k], name) && Unregister(name) !in events[k..]
    && forall j :: 0 <= j < k && Takes(env, events[j], name) ==> Unregister(name) in events[j..k]
  }

  /** A registration that was not taken back. */
  ghost predicate NotTakenBack(env: Env, events: seq<Event>, name: string, k: nat) {
    k < |events| && Takes(env, events[k], name) && Unregister(name) !in events[k..]
  }

  /** What the registration stores: the command as it was given, with its own certified broker. */
  ghost predicate Stores(env: Env, ev: Event, command: Command)
    requires ev.Register?
  {
    && command == ev.command.(broker := command.broker)
    && match ev.draft
       case None => command.broker.None?
       case Some(draft) => command.broker.Some? && Certifies(env, ev.heap, ev.command, draft, command.broker.value)
  }

  lemma {:induction false} EarliestStands(env: Env, events: seq<Event>, name: string, k: nat) returns (first: nat)
    requires NotTakenBack(env, events, name, k)
    ensures StandsSince(env, events, name, first)
  {
    first := k;
    if j: nat :| j < k && Takes(env, events[j], name) && Unregister(name) !in events[j..k] {
      assert events[j..] == events[j..k] + events[k..];
      first := EarliestStands(env, events, name, j);
    }
  }

  lemma {:induction false} SliceOneMore(events: seq<Event>, k: nat)
    requires k < |events| - 1
    ensures var n := |events| - 1; events[k..] == events[..n][k..] + [events[n]]
  {
  }

  lemma {:induction false} StandsOneMore(env: Env, events: seq<Event>, name: string, k: nat)
    requires k < |events| - 1
    ensures var n := |events| - 1;
      StandsSince(env, events, name, k) <==> StandsSince(env, events[..n], name, k) && events[n] != Unregister(name)
  {
    var n := |events| - 1;
    SliceOneMore(events, k);
    assert forall j :: 0 <= j < k ==> events[..n][j] == events[j] && events[..n][j..k] == events[j..k];
  }

  /** The new event registers the name exactly if it holds water and nothing stands there yet. */
  lemma {:induction false} StandsNow(env: Env, events: seq<Event>, name: string)
    requires |events| > 0
    ensures var n := |events| - 1;
      StandsSince(env, events, name, n) <==>
      Takes(env, events[n], name) && !exists k: nat :: StandsSince(env, events[..n], name, k)
  {
    var n := |events| - 1;
    assert events[n..] == [events[n]];
    if k: nat :| StandsSince(env, events[..n], name, k) {
      assert events[..n][k] == events[k] && events[..n][k..] == events[k..n];
    }
    if j: nat :| j < n && Takes(env, events[j], name) && Unregister(name) !in events[j..n] {
      assert events[..n][j] == events[j] && events[..n][j..] == events[j..n];
      var first := EarliestStands(env, events[..n], name, j);
    }
  }

  /** A name is there exactly when a registration of it stands, with what that stored. */
  ghost predicate CommandsTell(env: Env, events: seq<Event>, name: string, commands: map<string, Command>) {
    && (name in commands <==> exists k: nat :: StandsSince(env, events, name, k))
    && (forall k: nat :: StandsSince(env, events, name, k) ==> name in commands && Stores(env, events[k], commands[name]))
  }

  /** What one event does to what stands under a name. */
  ghost predicate CommandMoves(env: Env, ev: Event, name: string, before: map<string, Command>, after: map<string, Command>) {
    && (name in after <==> ev != Unregister(name) && (name in before || Takes(env, ev, name)))
    && (name in before && name in after ==> after[name] == before[name])
    && (name !in before && Takes(env, ev, name) ==> Stores(env, ev, after[name]))
  }

  lemma {:induction false} StepMovesCommand(env: Env, st: State, ev: Event, name: string)
    ensures CommandMoves(env, ev, name, st.commands, Step(env, st, ev).commands)
  {
  }

  lemma {:induction false} CommandsGoOn(
    env: Env, events: seq<Event>, name: string, before: map<string, Command>, after: map<string, Command>)
    requires |events| > 0 && CommandsTell(env, events[..|events| - 1], name, before)
    requires CommandMoves(env, events[|events| - 1], name, before, after)
    ensures CommandsTell(env, events, name, after)
  {
    var n := |events| - 1;
    StandsNow(env, events, name);
    forall k: nat | k < n
      ensures StandsSince(env, events, name, k) <==>
              StandsSince(env, events[..n], name, k) && events[n] != Unregister(name)
    {
      StandsOneMore(env, events, name, k);
    }
    if k: nat :| StandsSince(env, events[..n], name, k) { assert events[..n][k] == events[k]; }
  }

  lemma {:induction false} CommandsAreHistory(env: Env, events: seq<Event>, name: string)
    ensures CommandsTell(env, events, name, RunAll(env, events).commands)
  {
    if |events| == 0 {
    } else {
      var n := |events| - 1;
      CommandsAreHistory(env, events[..n], name);
      StepMovesCommand(env, RunAll(env, events[..n]), events[n], name);
      CommandsGoOn(env, events, name, RunAll(env, events[..n]).commands, RunAll(env, events).commands);
    }
  }

  // ---------------------------------------------------------------- contexts and the gate

  /** Event number `k` issued this context, as the first to be issued under its token. */
  ghost predicate IssuedBy(env: Env, events: seq<Event>, token: nat, k: nat) {
    && k < |events| && events[k].Issue? && events[k].token == token && IdentityOk(env, events[k].who)
    && forall j :: 0 <= j < k && events[j].Issue? && events[j].token == token ==> !IdentityOk(env, events[j].who)
  }

  /** A token has a context exactly when one was issued under it, and that stays as it was issued. */
  ghost predicate ContextsTell(env: Env, events: seq<Event>, token: nat, issued: map<nat, Identity>) {
    && (token in issued <==> exists k: nat :: IssuedBy(env, events, token, k))
    && (forall k: nat :: IssuedBy(env, events, token, k) ==> token in issued && issued[token] == events[k].who)
  }

  ghost predicate ContextMoves(env: Env, ev: Event, token: nat, before: map<nat, Identity>, after: map<nat, Identity>) {
    && (token in after <==> token in before || (ev.Issue? && ev.token == token && IdentityOk(env, ev.who)))
    && (token in before ==> after[token] == before[token])
    && (token !in before && token in after ==> after[token] == ev.who)
  }

  lemma {:induction false} StepMovesContext(env: Env, st: State, ev: Event, token: nat)
    ensures ContextMoves(env, ev, token, st.issued, Step(env, st, ev).issued)
  {
  }

  lemma {:induction false} IssuedOneMore(env: Env, events: seq<Event>, token: nat, k: nat)
    requires k < |events| - 1
    ensures IssuedBy(env, events, token, k) <==> IssuedBy(env, events[..|events| - 1], token, k)
  {
    assert forall j :: 0 <= j <= k ==> events[..|events| - 1][j] == events[j];
  }

  lemma {:induction false} IssuedNow(env: Env, events: seq<Event>, token: nat)
    requires |events| > 0
    ensures var n := |events| - 1;
      IssuedBy(env, events, token, n) <==>
      && events[n].Issue? && events[n].token == token && IdentityOk(env, events[n].who)
      && !exists k: nat :: IssuedBy(env, events[..n], token, k)
  {
    var n := |events| - 1;
    assert forall j :: 0 <= j < n ==> events[..n][j] == events[j];
    if !exists k: nat :: IssuedBy(env, events[..n], token, k) { NoneIssued(env, events[..n], token); }
    if k: nat :| IssuedBy(env, events[..n], token, k) { assert events[..n][k] == events[k]; }
  }

  lemma {:induction false} ContextsGoOn(
    env: Env, events: seq<Event>, token: nat, before: map<nat, Identity>, after: map<nat, Identity>)
    requires |events| > 0 && ContextsTell(env, events[..|events| - 1], token, before)
    requires ContextMoves(env, events[|events| - 1], token, before, after)
    ensures ContextsTell(env, events, token, after)
  {
    var n := |events| - 1;
    IssuedNow(env, events, token);
    forall k: nat | k < n ensures IssuedBy(env, events, token, k) <==> IssuedBy(env, events[..n], token, k) {
      IssuedOneMore(env, events, token, k);
    }
    if k: nat :| IssuedBy(env, events[..n], token, k) { assert events[..n][k] == events[k]; }
  }

  lemma {:induction false} ContextsAreHistory(env: Env, events: seq<Event>, token: nat)
    ensures ContextsTell(env, events, token, RunAll(env, events).issued)
  {
    if |events| == 0 {
    } else {
      var n := |events| - 1;
      ContextsAreHistory(env, events[..n], token);
      StepMovesContext(env, RunAll(env, events[..n]), events[n], token);
      ContextsGoOn(env, events, token, RunAll(env, events[..n]).issued, RunAll(env, events).issued);
    }
  }

  lemma {:induction false} NoneIssued(env: Env, events: seq<Event>, token: nat)
    requires !exists k: nat :: IssuedBy(env, events, token, k)
    ensures forall j :: 0 <= j < |events| && events[j].Issue? && events[j].token == token ==> !IdentityOk(env, events[j].who)
  {
    for n := 0 to |events|
      invariant forall j :: 0 <= j < n && events[j].Issue? && events[j].token == token ==> !IdentityOk(env, events[j].who)
    {
      assert !IssuedBy(env, events, token, n);
    }
  }

  /** The gate is the one set last, and at first lets every danger through. */
  ghost predicate GateTells(events: seq<Event>, gate: set<Danger>) {
    && (forall k :: 0 <= k < |events| && events[k].SetGate? && (forall j :: k < j < |events| ==> !events[j].SetGate?) ==>
          gate == events[k].gate)
    && ((forall k :: 0 <= k < |events| ==> !events[k].SetGate?) ==> gate == {Destructive, Inject})
  }

  lemma {:induction false} StepMovesGate(env: Env, st: State, ev: Event)
    ensures Step(env, st, ev).gate == if ev.SetGate? then ev.gate else st.gate
  {
  }

  lemma {:induction false} GateGoesOn(events: seq<Event>, before: set<Danger>, after: set<Danger>)
    requires |events| > 0 && GateTells(events[..|events| - 1], before)
    requires after == if events[|events| - 1].SetGate? then events[|events| - 1].gate else before
    ensures GateTells(events, after)
  {
    assert forall k :: 0 <= k < |events| - 1 ==> events[..|events| - 1][k] == events[k];
  }

  lemma {:induction false} GateIsHistory(env: Env, events: seq<Event>)
    ensures GateTells(events, RunAll(env, events).gate)
  {
    if |events| == 0 {
    } else {
      var n := |events| - 1;
      GateIsHistory(env, events[..n]);
      StepMovesGate(env, RunAll(env, events[..n]), events[n]);
      GateGoesOn(events, RunAll(env, events[..n]).gate, RunAll(env, events).gate);
    }
  }

  // ---------------------------------------------------------------- what callers are promised

  /** The data of a success, `{}` for none, is admitted by the result definition as it was registered. */
  ghost predicate AsRegistered(registration: Event, outcome: Outcome)
    requires registration.Register? && registration.draft.Some? && outcome.Success?
  {
    var rule := DefinitionMeaning.Defined(registration.draft.value.result);
    match outcome.data
    case Some(v) => DefinitionMeaning.Admits(registration.heap, outcome.heap, DefinitionMeaning.Place(rule, v))
    case None =>
      DefinitionMeaning.Admits(registration.heap, outcome.heap + [Record([])],
                               DefinitionMeaning.Place(rule, Obj(|outcome.heap|)))
  }

  lemma {:induction false} StoredConforms(env: Env, registration: Event, command: Command, outcome: Outcome)
    requires registration.Register? && Stores(env, registration, command) && command.broker.Some?
    requires outcome.Success? && Conforms(command.broker.value.result, outcome)
    ensures registration.draft.Some? && AsRegistered(registration, outcome)
  {
    var s, raw := command.broker.value.result, registration.draft.value.result;
    assert IsSchema(registration.heap, raw, s);
    match outcome.data
    case Some(v) => DefinitionMeaning.AcceptsAsWritten(registration.heap, raw, s, outcome.heap, v);
    case None =>
      DefinitionMeaning.AcceptsAsWritten(registration.heap, raw, s, outcome.heap + [Record([])], Obj(|outcome.heap|));
  }

  /** Over every run, whatever a plugin is told as a success is right by the keywords of the definition that the
      standing registration of the command was made with. */
  lemma {:induction false} SuccessIsAsRegistered(
    env: Env, events: seq<Event>, token: nat, name: string, h: Heap, given: Option<Args>, answer: Answer)
    requires RunForPlugin(env, RunAll(env, events), token, name, h, given, answer).0.Success?
    ensures exists k: nat :: StandsSince(env, events, name, k) && events[k].draft.Some?
              && AsRegistered(events[k], RunForPlugin(env, RunAll(env, events), token, name, h, given, answer).0)
  {
    var st := RunAll(env, events);
    CommandsAreHistory(env, events, name);
    assert name in st.commands;
    PluginReplyIsSound(env, st, token, name, h, given, answer);
    var k: nat :| StandsSince(env, events, name, k);
    StoredConforms(env, events[k], st.commands[name], RunForPlugin(env, st, token, name, h, given, answer).0);
  }
}
