# Soksak commands, modelled and proved in Dafny

This project models the algorithms and state machines of `src/commands` of the soksak desktop app, with the
libraries they rest on (`src/lib/gutterAddress.ts`, `src/lib/layoutTransitionJournal.ts`,
`src/lib/procfile.ts`), and proves what they keep. `dafny verify dfyconfig.toml` checks all of it.

| files | what they model |
|---|---|
| `JsValues`, `MachineSchema` | JavaScript values in a heap, so that sharing and cycles are real; the certifier of result schemas |
| `ResultCheck`, `ResultMeaning`, `DefinitionMeaning` | the checker of command results, what its acceptance means, and what a raw definition means through certifier and checker together |
| `CommandModel`, `CoordinateCheck`, `CoordinateMeaning`, `Broker`, `CallGate`, `RegistryHistory`, `Registry` | parameters, defaults, outcomes; the budget of context coordinates and what it means; the registry as a state machine; exactly when it calls a handler; what it holds, told from its history; the registry object that refines it |
| `LayoutJournal`, `TraceMachine`, `TraceTable`, `TraceLedger`, `TraceWorld`, `TraceStart` | the multi-DOM trace recorder: the journal of layout transitions that feeds it, one session under every interleaving, the table of sessions, the whole ledger told from the events alone, journal and table together, and the checks in front of them |
| `Delivery`, `DeliveryProgress`, `Executor` | request delivery, the host-ready gate, the reply and the tasks after it; that requests get answered |
| `Text`, `Address`, `Resolve`, `ComposedTree` | DOM addresses, from an address to an element, and looking up through shadow boundaries |
| `ShellQuote` | the release commands' shell lines against the shell's own reading of them |
| `PtyRing`, `MotionAnchors`, `DaemonAutostart` | the PTY output ring, capture motion anchors, daemon autostart under crashes |
| `PixelStats`, `Gutters` | grid sampling of an image; gutters of a split layout and their arithmetic |

Code that changes state step by step is a class or a method here, and its `ensures` ties the new state to a
function of the old one; what the source promises is then proved about that function, over every input or
every run. A session, a registry or an executor is a machine whose events are the stretches of code between
two points where JavaScript can be interrupted.

The certifier, the checkers and the validators count errors where the source collects messages. The heap is
a value: checking only reads. A reference outside the heap is an object nothing is known about. Numbers are
reals, infinities and NaN; rounding is not modelled. `Number(v)`, SemVer range matching and the vocabulary
of plugin permissions are parameters (`Env`), and so are the style sheets that decide what is `static`.
Times, rectangles and process ids are opaque values that events bring along.

## What is not as promised

Where the code and what its names, comments or tests promise disagree, the model follows the code and proves
for all inputs when they agree; a lemma at an input the code can receive shows the difference.

- Keys that `Object.prototype` defines. `schema.properties[key]` (`src/commands/registry.ts:639`) finds a
  function under `toString`, so a closed object lets the key through, and an open one is refused for it at
  depth 17 (exactly when: `PromiseBroken`; inputs: `ClosedObjectTakesToString`, `DeepInheritedKeyIsRefused`).
  `key in spec.params` and `params[key]` (`src/commands/registry.ts:1068-1072`) do the same to arguments: an
  undeclared `toString` reaches the handler, a required JSON parameter `constructor` may be left out, and an
  optional string parameter `constructor` may not (exactly when: `ValidationExactly`,
  `HandlerArgumentsExactly`; inputs: `UndeclaredIsTaken`, `RequiredIsSkipped`, `OptionalIsRefused`).
  `policy.autostart?.[name]` (`src/commands/catalogDaemon.ts:461`) starts a daemon called `constructor` that
  nobody allowed (`StartsOnlyPermitted`; input: `UndecidedIsStarted`).
- The result checker refuses a value that holds itself under a declared key even where the schema looks no
  further, so that its unfolding is a finite tree (`LegalIsTree`; input: `FiniteTreeOnACycle`). Its depth guard
  never decides about typed positions, only about `json` data and inherited keys (`TypedGuardNeverFires`).
- A host-bound parameter named `_` can be taken for the command-line shorthand and moved to another
  parameter (`src/commands/registry.ts:1337-1347`): host values arrive exactly when that does not happen
  (`AuthorityExactly`; input: `ShorthandDiverts`).
- The coordinates of an issued context are typed as JSON (`src/commands/registry.ts:236-242`). The check skips the
  holes of an array and properties beside its elements, so a value with these passes: what it accepts is a
  document exactly when it has neither (`AcceptedIsDocument`; input: `HoleIsAccepted`).
- The trace recorder's comment says a new transaction takes over from the earlier callbacks
  (`src/commands/catalogDom.ts:175-179`). The animation listeners and mutation observers of earlier commits stay
  attached, after the trace is closed too; `LeftOnDocument` counts them for every run (input:
  `CloseLeavesOneBehind`). That they leave the ledger alone rests on the journal publishing every transaction
  once (`EveryLedgerIsBlocks`, `EveryReceiptIsWellTold`): the guards compare transaction ids only
  (`UniformUntilTwin`).
- A comment on the executor's gate says every request waits for plugin activation
  (`src/commands/executor.ts:39-43`). The code lets a request start before that exactly when its command is
  registered at its first delivery (`StartsEarlyExactly`; input: `CoreCommandDoesNotWait`).
- An exposed node of the host chrome whose path ends in a slash does not answer to its own address
  (`OwnAddressResolves`; input: `SlashedChromeIsNotExposed`), and outside a window host, where the label is
  empty, `win/<label>/...` does not answer for what the shorter address finds (exactly when:
  `CurrentWindowMayBeOmitted`; input: `EmptyLabelIsNotRead`).
- A read of less than one line reads everything (exactly when: `ReadsWholeLines`; input: `HalfALineIsEverything`).
- Anchors restore a host only if it had no anchor state before (`ClearingRestores`; input:
  `EarlierAnchorIsLost`), and a static host named twice keeps the position `relative`, with two observers that
  never settle (`TwiceOnOneHost`, `SettleTogether`; input: `TwiceNamedStaysRelative`).
- The sampling step is chosen from the area; an ordinary image whose sides are no whole steps can exceed the
  cap (`CapHoldsIffPaddedAreaFits`; input: `OrdinaryImageBreaksCap`).

## Model

| member | source | states |
|---|---|---|
| MachineSchema.DenotesIsFunctional | src/commands/registry.ts:367-474 | a raw definition unfolds to at most one schema tree |
| MachineSchema.NotUniqueStrings | src/commands/registry.ts:415-416 | the array test finds exactly a non-string or a repeated element, holes read as undefined |
| MachineSchema.Certifier.CheckBounds | src/commands/registry.ts:396-406 | no error exactly for absent or finite bounds in order |
| MachineSchema.Certifier.CheckEnum | src/commands/registry.ts:412-417 | no error exactly for an absent enum or a non-empty array of distinct strings |
| MachineSchema.Certifier.CheckLimit | src/commands/registry.ts:418-421 | no error exactly for an absent or non-negative safe integer limit |
| MachineSchema.Certifier.CheckRequired | src/commands/registry.ts:447-459 | no error exactly when `required` holds distinct strings that `properties` owns |
| MachineSchema.Certifier.CheckKeywords | src/commands/registry.ts:468-470 | no error exactly when every visible keyword belongs to the type |
| MachineSchema.Certifier.VisitEntries | src/commands/registry.ts:442-445 | all properties fit the remaining depth and node budgets under safe names, or some error was pushed, and then they do not |
| MachineSchema.Certifier.VisitLeaf | src/commands/registry.ts:387-423 | the types without nested definitions: no error exactly when the grammar reads a leaf, and which |
| MachineSchema.Certifier.VisitArray | src/commands/registry.ts:424-434 | an array definition fits with its items one level deeper, or an error was pushed and it does not |
| MachineSchema.Certifier.VisitObject | src/commands/registry.ts:435-464 | an object definition fits with its properties, or an error was pushed and it does not |
| MachineSchema.Certifier.Visit | src/commands/registry.ts:370-471 | from any budget position on: no error exactly when the value unfolds to a tree that fits what is left, whose nodes are then counted |
| MachineSchema.Certify | src/commands/registry.ts:367-474 | terminates on cyclic definitions too; no error exactly when the definition unfolds to a tree of the closed grammar of depth at most 16 with at most 512 nodes |
| DefinitionMeaning.ReadsWellFormed | src/commands/registry.ts:380-470 | the grammar reads exactly the definitions whose every listed keyword belongs to their type and holds what it must, told keyword by keyword |
| DefinitionMeaning.AcceptsAsWritten | src/commands/registry.ts:367-648 | certifier and checker together: a value is accepted by what a definition certifies to if and only if every place the raw definition leads to is right by its own keywords (bounds, enum, lengths, required, additionalProperties), at most 16 steps down and on no cycle |
| DefinitionMeaning.AdditionalPropertiesDecide | src/commands/registry.ts:460-462 | the empty object definition is certified both ways, and takes a further key exactly when it says `additionalProperties: true` |
| ResultCheck.Checker.PushCapped | src/commands/registry.ts:476-478 | errors are counted up to the cap of 16 |
| ResultCheck.Checker.CheckJson | src/commands/registry.ts:481-565 | terminates on every heap, leaves the ancestor set as it found it, and below the cap adds no error exactly for a clean `json` position |
| ResultCheck.Checker.CheckJsonItems | src/commands/registry.ts:512-539 | the same for the elements of an array, holes and stray keys refused |
| ResultCheck.Checker.CheckJsonFields | src/commands/registry.ts:546-564 | the same for the own properties of a plain object, symbols, unsafe keys and accessors refused |
| ResultCheck.Checker.Check | src/commands/registry.ts:567-648 | terminates on every heap, leaves the ancestor set as it found it, and below the cap adds no error exactly for a clean position |
| ResultCheck.Checker.CheckArray | src/commands/registry.ts:611-624 | the same for a typed array, holes skipped |
| ResultCheck.Checker.CheckObject | src/commands/registry.ts:625-647 | the same for a typed object, keys found on Object.prototype included |
| ResultMeaning.CleanIsLegal | src/commands/registry.ts:567-648 | the recursion with its ancestor set accepts exactly the values whose every position reached by the schema is right, at depth at most 16 and on no cycle |
| ResultMeaning.CheckResult | src/commands/registry.ts:1309-1310 | no violation exactly for legal data |
| ResultMeaning.TypedPathIsShort | src/commands/registry.ts:611-646 | a path to a typed position spends one level of the schema's height per step |
| ResultMeaning.TypedGuardNeverFires | src/commands/registry.ts:576-579 | on a certified schema the depth guard can be dropped at typed positions without changing what is accepted |
| ResultMeaning.PromiseKept | src/commands/registry.ts:638-644 | closed objects are closed on every value that has no undeclared key spelled like a member of Object.prototype |
| ResultMeaning.PromiseBroken | src/commands/registry.ts:638-644 | on a value right in all else: an undeclared key is let through exactly when an object that should be closed has one and no inherited key lies below depth 16; a value is wrongly refused exactly when all objects are closed and one does |
| ResultMeaning.ClosedObjectTakesToString | src/commands/registry.ts:638-644 | the empty closed object schema accepts a function under `toString` |
| ResultMeaning.DeepInheritedKeyIsRefused | src/commands/registry.ts:576-579 | open objects nested as deep as a schema may be, with a `toString` in the innermost, keep the promise and are refused |
| ResultMeaning.LegalIsTree | src/commands/registry.ts:567-648 | a value is accepted exactly when its unfolding along the schema is a finite tree of depth at most 16, right at every node, and it meets no object again inside itself |
| ResultMeaning.FiniteTreeOnACycle | src/commands/registry.ts:630-633 | an object that holds itself where the schema looks no further unfolds to a finite tree and is refused |
| ResultMeaning.SharingIsAccepted | src/commands/registry.ts:617-646 | without cycles an object may be met any number of times: only depth and the positions decide |
| ResultMeaning.RepresentsIsFunctional | src/commands/registry.ts:480-565 | a value unfolds to at most one JSON document |
| ResultMeaning.DocumentIsLegal | src/commands/registry.ts:480-565 | every JSON document of at most 16 levels is accepted, however its parts are shared |
| ResultMeaning.CleanIsDocument | src/commands/registry.ts:480-565 | what is accepted unfolds to a finite JSON document within the depth left |
| ResultMeaning.JsonDialectIsJson | src/commands/registry.ts:480-565 | the `json` dialect accepts exactly the values that unfold to a JSON document of at most 16 levels |
| Registry.CertifyAuthority | src/commands/registry.ts:700-742 | no error exactly when every binding names a distinct, declared, safe parameter of the source's type, and then all are kept |
| Registry.CertifyBroker | src/commands/registry.ts:656-759 | certification succeeds exactly when the draft meets every rule, and yields the broker with the certified schema |
| Broker.CertifiesExactly | src/commands/registry.ts:656-759 | a draft certifies if and only if it lists `commands`, the permission of its own danger and known permissions only, none twice, contract ids once, bindings to distinct, declared, safely named parameters of their source's type, and an object schema that certifies |
| Broker.IdentityExactly | src/commands/registry.ts:880-956 | a context is issued if and only if every text it carries has 1 to 256 characters, every key of its tables is safe, its role, generation, permissions and contracts are in order and each coordinate keeps its budget |
| Registry.CertifiesIsFunctional | src/commands/registry.ts:656-759 | a draft certifies to one broker only |
| Registry.CommandRegistry.DoRegister | src/commands/registry.ts:789-798 | registers as the machine does: never over a present name, never with an uncertified broker |
| Registry.CommandRegistry.DoUnregister | src/commands/registry.ts:801-803 | removes the name and says whether it was there |
| Registry.CommandRegistry.DoIssue | src/commands/registry.ts:880-977 | issues exactly the contexts whose principal, optional fields, grants, tables and coordinates meet every rule, whatever values the coordinates are, under fresh tokens only |
| CoordinateCheck.SpreadsIsFunctional | src/commands/registry.ts:827-869 | a value unfolds to at most one tree |
| CoordinateCheck.CycleHasNoTree | src/commands/registry.ts:852-856 | an object met again inside itself unfolds to no finite tree, so the ancestor test refuses nothing that fits |
| CoordinateCheck.Check.Visit | src/commands/registry.ts:827-869 | on every heap, from any depth, count and ancestors on: no error exactly when the value unfolds to a finite tree of finite scalars, arrays and plain objects with safe keys that keeps within depth 16 and 8192 values, which are then counted |
| CoordinateCheck.Check.VisitObject | src/commands/registry.ts:852-868 | the same for what lies inside one object, which is an ancestor meanwhile and none afterwards |
| CoordinateCheck.Check.VisitItems | src/commands/registry.ts:858-859 | the same for the elements of an array, holes skipped |
| CoordinateCheck.Check.VisitEntries | src/commands/registry.ts:860-864 | the same for the entries of a plain object, empty and unsafe keys refused |
| CoordinateCheck.CheckCoordinates | src/commands/registry.ts:947-954 | no error exactly when every coordinate has a safe key and keeps its own budget |
| CoordinateMeaning.AcceptedIsDocument | src/commands/registry.ts:236-242 | an accepted coordinate is a JSON document exactly when no object reached in it has a hole or a property the check skips |
| CoordinateMeaning.HoleIsAccepted | src/commands/registry.ts:858-859 | an array of one hole is accepted, and is no document |
| Registry.CommandRegistry.SetPermissionGate | src/commands/registry.ts:286-290 | replaces the gate and nothing else |
| Registry.CommandRegistry.Rewrite | src/commands/registry.ts:1337-1347 | a lone `_` is renamed to the primary or only required parameter and converted to its type |
| Registry.CommandRegistry.Validate | src/commands/registry.ts:1061-1101 | passes exactly the arguments whose every key lookup finds among the declared parameters and whose every parameter, as lookup yields it, has its type and enum or may be missing |
| Registry.CommandRegistry.FillDefaults | src/commands/registry.ts:1360-1365 | fills exactly the undefined parameters that have a default |
| Registry.CommandRegistry.ExecuteInner | src/commands/registry.ts:1320-1379 | rewriting, validation, gate, defaults, handler and outcome in the machine's order; the handler is called at most once |
| Registry.CommandRegistry.Execute | src/commands/registry.ts:1141-1147 | a context with a plugin identity may not enter by the host's door |
| Registry.CommandRegistry.InjectAuthority | src/commands/registry.ts:1293-1304 | every bound parameter gets the host's value, or the call is refused when one is lacking |
| Registry.CommandRegistry.RunPluginChannel | src/commands/registry.ts:1240-1318 | the plugin channel's checks in order, then the inner execution, then the result check |
| Registry.CommandRegistry.ExecuteFromPlugin | src/commands/registry.ts:1150-1156 | the whole channel is one step of the machine |
| CommandModel.OutcomeCarriesWhatRemains | src/commands/registry.ts:1384-1439 | an answer is declined exactly on `ok: false`, with its code, its error text or `INTERNAL`, and fails exactly when its message threw; both kinds carry the named data object, or a new one of exactly the fields beside their reserved names |
| CommandModel.EnvelopeNames | src/commands/registry.ts:1384-1439 | beside `ok`, `code`, `message` and `data`, media belong to a success, an error to a failure, hints to a service; everything else is data |
| CommandModel.ElementsAreFields | src/commands/registry.ts:1419-1427 | a returned array carries its elements under their numbers, holes left out |
| CommandModel.ShorthandExactly | src/commands/registry.ts:1334-1347 | a value sent alone under `_` goes to the primary or the only required parameter, in its type; without one, and beside other arguments, nothing moves |
| CommandModel.DefaultsExactly | src/commands/registry.ts:1360-1365 | a default takes the place of an undefined parameter and of nothing else |
| CommandModel.TypesTellApart | src/commands/registry.ts:1076-1098 | every parameter type takes its own values and no other's, JSON all of them |
| CommandModel.StringParamTakes | src/commands/registry.ts:1072-1080 | a string parameter takes strings, of its enum if it has one, and does without when it may |
| CommandModel.ValidationExactly | src/commands/registry.ts:1061-1101 | validation wrongly passes exactly when an argument is undeclared or a required parameter only looks given, and wrongly refuses exactly when a parameter that looks given takes less than any JSON |
| CommandModel.HandlerArgumentsExactly | src/commands/registry.ts:1348-1365 | at the handler every argument is declared, and every parameter with a requirement or a default is there, exactly when no name on Object.prototype is given undeclared, or left out |
| CommandModel.UndeclaredIsTaken | src/commands/registry.ts:1067-1069 | an argument `toString` passes a command without parameters |
| CommandModel.RequiredIsSkipped | src/commands/registry.ts:1070-1075 | a required JSON parameter `constructor` may be left out |
| CommandModel.OptionalIsRefused | src/commands/registry.ts:1070-1080 | an optional string parameter `constructor` may not be left out |
| CommandModel.EachSourceHasItsField | src/commands/registry.ts:1209-1219 | every source of a principal's identity tells its own field, and no other source sees it |
| CommandModel.EachPlaceHasItsField | src/commands/registry.ts:1219-1221 | so do contribution, instance and namespace |
| CommandModel.EachKeyHasItsEntry | src/commands/registry.ts:1225-1238 | every keyed source tells its own entry of its own table, a cloned one if it is an object, and nothing when the entry is gone |
| Broker.ValidIsSupplied | src/commands/registry.ts:1348-1365 | after validation and defaults no required parameter is missing and no default is left out, as lookup sees it |
| Broker.InjectedValues | src/commands/registry.ts:1293-1304 | after injection every bound parameter holds exactly the host's value, whatever the caller sent |
| Broker.DefaultsKeepAuthority | src/commands/registry.ts:1359-1365 | filling defaults never overwrites a host value; as in every issued context, none is undefined |
| Broker.RewritesOneBinding | src/commands/registry.ts:1337-1347 | after injection only a parameter bound under the name `_`, alone, can be taken for a shorthand |
| Broker.AuthorityExactly | src/commands/registry.ts:1293-1365 | at the handler the host's values hold if and only if the shorthand does not divert the one bound to `_` |
| Broker.LostOnlyByDiversion | src/commands/registry.ts:1293-1365 | a host value can only be lost where the single binding is to `_` and the shorthand is meant for another parameter |
| Broker.NoUnderscoreNoDiversion | src/commands/registry.ts:1293-1365 | with no parameter named `_` the host's values always arrive |
| Broker.ShorthandDiverts | src/commands/registry.ts:1337-1347 | a certified command whose bound `_` reaches its handler under another name |
| Broker.BoundValueHasItsType | src/commands/registry.ts:650-654 | a bound value passes the type test of its parameter; only an enum, or null on a required parameter, can refuse it |
| Broker.PluginCallShape | src/commands/registry.ts:1240-1306 | what every plugin call passed on its way to the handler, and its exact arguments |
| Broker.PluginCallIsSound | src/commands/registry.ts:1240-1306 | a handler call for a plugin comes from an issued context, with permissions, both contract directions and the gate met, and with the host's values |
| Broker.PluginReplyIsSound | src/commands/registry.ts:1306-1317 | a success carries data legal for the certified schema |
| CallGate.PluginCallExactly | src/commands/registry.ts:1240-1366 | a plugin's call reaches a handler, once, if and only if nothing stands in the way: an unissued context, an absent or unoffered command, parameters that are no object or name one the host owns, a missing permission, an unmet contract, a missing host value, invalid arguments, a closed gate |
| CallGate.FirstObstacleAnswers | src/commands/registry.ts:1240-1358 | each of these has its code, the first is told, and no handler is called |
| CallGate.FreeCallIsMade | src/commands/registry.ts:1293-1318 | with none of them the handler is called with the arguments meant, and the answer is its own unless its data breaks the schema |
| CallGate.HostCallExactly | src/commands/registry.ts:1141-1147 | a host call reaches its handler, once, if and only if it does not pretend to be a plugin's, its command is there, its arguments are valid and, from outside, its danger is allowed |
| CallGate.FirstStopAnswers | src/commands/registry.ts:1320-1358 | each failing test of a host call has its code, and the first is told |
| Broker.StepKeepsSound | src/commands/registry.ts:789-1365 | every event keeps the registry's invariant |
| Broker.EveryRunIsSound | src/commands/registry.ts:789-1365 | over every run: certified brokers, valid contexts, gated handler calls supplied as lookup sees it, plugin calls for issued contexts only, with every grant and with the host's own values unless the one binding is to `_` and the shorthand is meant elsewhere, and conforming successes |
| RegistryHistory.CommandsAreHistory | src/commands/registry.ts:789-803 | over every run a name is there if and only if a sound registration of it stands: not taken back since, and the first since the last one that was; it holds what that one stored |
| RegistryHistory.ContextsAreHistory | src/commands/registry.ts:880-977 | over every run a token has a context if and only if one was issued under it, and that stays as it was first issued |
| RegistryHistory.GateIsHistory | src/commands/registry.ts:282-290 | over every run the gate is the one set last; at first it lets every danger through |
| RegistryHistory.SuccessIsAsRegistered | src/commands/registry.ts:656-1318 | over every run, the data of every success the plugin channel answers is right by the keywords of the raw definition that the command's standing registration was made with |
| TraceMachine.ReactIsOk | src/commands/catalogDom.ts:138-304 | every event, stale callbacks included, keeps the ledger in order, the counts exact and the timers consistent |
| LayoutJournal.TransitionJournal.PrepareTransition | src/lib/layoutTransitionJournal.ts:100-121 | every prepared transition gets the next number |
| LayoutJournal.TransitionJournal.CommitTransition | src/lib/layoutTransitionJournal.ts:126-138 | an open transition closes and is published with its own id; a closed one does nothing |
| LayoutJournal.TransitionJournal.CancelTransition | src/lib/layoutTransitionJournal.ts:155-161 | an open transition closes unpublished |
| LayoutJournal.JournalIsHistory | src/lib/layoutTransitionJournal.ts:100-162 | from its beginning on the journal counts the transitions prepared, and has closed exactly those committed or cancelled after that |
| LayoutJournal.PublishedExactly | src/lib/layoutTransitionJournal.ts:126-138 | a commit is published if and only if its transition was prepared, and neither committed nor cancelled before |
| LayoutJournal.HeardOnce | src/lib/layoutTransitionJournal.ts:100-162 | from any journal on, no transaction is heard to commit twice |
| LayoutJournal.EveryLedgerIsBlocks | src/commands/catalogDom.ts:138-274 | over every interleaving of layout transitions, callbacks, expiry and closing: one `arm` sample, then blocks that open with `layout-commit` and `commit-anchor` and carry one transaction and one commit time; samples are numbered by index and counted by producer |
| TraceMachine.LedgerHasBlocks | src/commands/catalogDom.ts:138-274 | the links between neighbouring samples, and even commit times, make whole blocks |
| TraceMachine.EndedIsFinal | src/commands/catalogDom.ts:202-304 | after the end no event changes samples, counts, end time or timeout flag |
| TraceMachine.LeftOnDocument | src/commands/catalogDom.ts:202-304 | how many listeners and observers are attached at any time, and left behind after expiry or closing |
| TraceMachine.CloseLeavesOneBehind | src/commands/catalogDom.ts:202-304 | after two commits and the close one listener and one observer stay on the document |
| TraceMachine.UniformUntilTwin | src/commands/catalogDom.ts:202-274 | what the guards rely on: in every session reached with even commit times the next event keeps them even if and only if no callback of the same transaction with another time is attached |
| TraceMachine.UniformRunIsInStep | src/commands/catalogDom.ts:180-274 | in every session reached with even commit times the interval, the frame callback and the last sample belong to the current commit |
| TraceMachine.OneTimeEachIsUniform | src/commands/catalogDom.ts:202-274 | through every run in which no transaction has two commit times, commit times are even within blocks |
| TraceLedger.LedgerExactly | src/commands/catalogDom.ts:138-304 | over every run the ledger is exactly the tale of its events: two samples a commit, one for each tick before expiry, frame, named animation end, and mutation outside a flip while its commit's transaction is the latest; none for anything else, and none after the end |
| TraceLedger.EndsExactly | src/commands/catalogDom.ts:276-304 | the first expiry or close ends the session, at its time and as what it was |
| TraceTable.EveryTableIsOk | src/commands/catalogDom.ts:1897-2019 | over every run: at most 8 sessions, and each session in the table has its expiry or eviction timer armed |
| TraceTable.TimersDrain | src/commands/catalogDom.ts:276-304 | expiry and then eviction alone take any session out of the table |
| TraceTable.EndedStaysFinal | src/commands/catalogDom.ts:202-304 | nothing that happens anywhere later changes an ended session's record |
| TraceTable.LifetimeIsNearest | src/commands/catalogDom.ts:1904-1907 | the lifetime is the nearest to the one asked for between 50 and 15000 milliseconds |
| TraceLedger.SessionIsAlone | src/commands/catalogDom.ts:1897-2019 | over every run of the table each session was started once, with room in the table, and is what its own events alone make it |
| TraceLedger.ReceiptIsTheLedger | src/commands/catalogDom.ts:1992-2019 | over every run of the table a receipt hands out the whole tale of its session, from its start on, and nothing else |
| TraceTable.TraceSession.AppendSample | src/commands/catalogDom.ts:138-173 | one sample numbered by index, one count more for its producer |
| TraceTable.TraceSession.StartPresentationFrames | src/commands/catalogDom.ts:180-274 | the anchor sample, and listener, observer, interval and frame callback of this commit beside the earlier ones |
| TraceTable.TraceSession.OnJournal | src/commands/catalogDom.ts:1943-1957 | a layout commit as one step of the machine |
| TraceTable.TraceSession.OnAnimationEnd | src/commands/catalogDom.ts:202-213 | any attached listener, stale or not, as one step |
| TraceTable.TraceSession.OnMutation | src/commands/catalogDom.ts:219-230 | any attached observer, stale or not, as one step |
| TraceTable.TraceSession.OnInterval | src/commands/catalogDom.ts:249-259 | an interval tick as one step |
| TraceTable.TraceSession.OnFrame | src/commands/catalogDom.ts:260-273 | a frame callback, which asks for the next, as one step |
| TraceTable.TraceSession.Finish | src/commands/catalogDom.ts:276-304 | ends a session once, detaching what its last commit attached |
| TraceTable.TraceSession.OnExpiry | src/commands/catalogDom.ts:1960-1960 | expiry ends a session that still lives |
| TraceTable.TraceSession.OnClose | src/commands/catalogDom.ts:2000-2002 | closing as one step: the session ends now if it still lived, and no eviction is armed |
| TraceTable.Recorder.StartTrace | src/commands/catalogDom.ts:1897-1969 | at 8 sessions nothing changes, else one more session is armed; no other changes |
| TraceStart.CheckRequest | src/commands/catalogDom.ts:1878-1884 | passes exactly one to sixteen distinct non-empty addresses with a positive lifetime, if one is given |
| TraceStart.ResolveAll | src/commands/catalogDom.ts:1891-1896 | all addresses resolve to these elements, or the first that does not is named with its reason |
| TraceStart.StartMulti | src/commands/catalogDom.ts:1876-1969 | a session is armed exactly when the request is sound, every address resolves and there is room; otherwise the recorder is as it was |
| TraceTable.Recorder.CloseTrace | src/commands/catalogDom.ts:1992-2019 | the receipt tells the session as it was, ended now if it still lived; it leaves the table and no other session changes |
| TraceTable.Recorder.OnEviction | src/commands/catalogDom.ts:298-302 | the eviction timer takes exactly its own session out |
| TraceWorld.Publish | src/lib/layoutTransitionJournal.ts:57-67 | every session in the table hears the commit, and hears it as one step |
| TraceWorld.EveryWorldIsOk | src/commands/catalogDom.ts:1897-2019 | over every run of journal and table together: each session's commit times are even, and what it still holds comes from transactions that are over, with one commit time each |
| TraceWorld.EveryReceiptIsWellTold | src/commands/catalogDom.ts:1992-2019 | over every run of journal and table together: every receipt is one `arm` sample followed by whole blocks of one transaction and one commit time, numbered by index and counted by producer |
| Delivery.StepIsSound | src/commands/executor.ts:128-158 | every step of delivery, reply and drain keeps the protocol's invariant |
| Delivery.EveryRunIsSound | src/commands/executor.ts:128-158 | over every run each request is in one phase, with exactly the actions of that phase in the log, in order |
| Delivery.ServedOnce | src/commands/executor.ts:131-140 | however often it is delivered, a request starts at most once, is answered at most once, and if its command was unregistered starts only after host-ready |
| Delivery.StartsEarlyExactly | src/commands/executor.ts:131-140 | over every run: a request starts before host-ready if and only if its command was registered at its first delivery, before host-ready |
| Delivery.CoreCommandDoesNotWait | src/commands/executor.ts:140-140 | a registered command delivered first of all starts at once |
| Delivery.TasksFollowReply | src/commands/commandReplyTransaction.ts:7-28 | after-reply tasks run only after the reply arrived, each once and in order; none after a broken reply; at the end of the drain none is missing |
| Delivery.SettledIsOver | src/commands/commandReplyTransaction.ts:7-28 | once the drain is over or the reply broke, nothing more runs, whatever happens later |
| Delivery.LateTasksAreLost | src/commands/commandReplyTransaction.ts:7-28 | over every run: all tasks of a drained request have run if and only if none was registered after the end of its drain; of one whose reply broke none runs |
| Delivery.ParkedOnlyShrinks | src/commands/executor.ts:140-140 | after host-ready nothing parks any more |
| Delivery.ReleaseIsEnabled | src/commands/executor.ts:55-60 | after host-ready every parked request can be released, which shrinks the parked set by it |
| Delivery.RequestsAreDelivered | src/commands/executor.ts:132-135 | over every run the requests known are exactly those delivered |
| DeliveryProgress.CanBeAnswered | src/commands/executor.ts:140-157 | from every sound state with the host ready, each unsettled request has a continuation of its own steps after which it was answered exactly once, all its tasks have run in order, and its drain is over |
| DeliveryProgress.CanFailToReply | src/commands/commandReplyTransaction.ts:7-28 | until its reply arrives it has another after which the reply failed, exactly once, and nothing of it ran |
| DeliveryProgress.NeverStuck | src/commands/executor.ts:140-157 | after host-ready a request that is not over always has an enabled step of its own |
| DeliveryProgress.OwnStepIsProgress | src/commands/executor.ts:140-157 | each such step brings it nearer to its end; registering a task leaves its phase |
| DeliveryProgress.OthersDoNotBlock | src/commands/executor.ts:132-157 | no step of another request, nor of the registry or the host, takes it away |
| DeliveryProgress.TasksAreHistory | src/commands/executor.ts:151-151 | over every run a request's tasks are all that were registered, in order |
| DeliveryProgress.ReadyIsHistory | src/commands/executor.ts:55-60 | over every run the host is ready if and only if it was marked so |
| DeliveryProgress.RegistryIsHistory | src/commands/executor.ts:140-140 | over every run a command is registered if and only if the last word about it was a registration |
| DeliveryProgress.AnsweredInFull | src/commands/executor.ts:132-157 | one request with two tasks, from delivery to the end of its drain, with its whole log |
| Executor.CommandExecutor.OnRequest | src/commands/executor.ts:132-151 | a delivery as one step: repeated ids are dropped, unregistered commands park until host-ready |
| Executor.CommandExecutor.MarkCommandHostReady | src/commands/executor.ts:55-60 | host-ready as one step |
| Executor.CommandExecutor.ResumeParked | src/commands/executor.ts:140-144 | a parked request starts |
| Executor.CommandExecutor.AfterReply | src/commands/executor.ts:151-151 | a task is appended to its own request |
| Executor.CommandExecutor.SendReply | src/commands/executor.ts:153-154 | the reply goes out |
| Executor.CommandExecutor.CompleteReply | src/commands/commandReplyTransaction.ts:7-28 | a broken reply runs no task; an arrived one runs all, those registered while the drain goes on included, and the whole drain is the machine's own run |
| Executor.RunTasks | src/commands/commandReplyTransaction.ts:19-26 | the loop reads the live list: each task had been registered when its turn came, none ever registered is missing at the end, and exactly the failing ones are reported |
| Executor.FailingAreThose | src/commands/commandReplyTransaction.ts:19-26 | the tasks reported are exactly those that ran and failed |
| Executor.DrainIsARun | src/commands/commandReplyTransaction.ts:7-28 | the loop over tasks is the machine's sequence of task steps |
| Address.ParseFormat | src/commands/address.ts:127-143 | reading undoes printing exactly on the well-formed structures |
| Address.ParsedIsPrinted | src/commands/address.ts:48-143 | what is read is well formed and prints as the input without its outer slashes |
| Address.AcceptsExactlyThePrinted | src/commands/address.ts:48-143 | the reader accepts exactly what prints some well-formed structure, outer slashes aside |
| Address.PrintsTheViewForm | src/commands/address.ts:10-14 | the full form of a view address, and a shortened one, piece by piece |
| Address.PrintsTheChromeForm | src/commands/address.ts:11-14 | the full form of a chrome address, and a shortened one, piece by piece |
| Address.TokensOfTheGrammar | src/commands/address.ts:22-28 | the three regions, and tokens the documentation and the tests name, good and bad |
| Address.StripTakesSlashes | src/commands/address.ts:51-51 | every slash at either end is stripped, and nothing else |
| Address.ParseAddress | src/commands/address.ts:49-125 | the cursor loop reads as the staged grammar does |
| Address.FormatAddress | src/commands/address.ts:128-143 | the printer pushes the pieces of the format in order |
| Resolve.ResolveExposed | src/commands/catalogDom.ts:382-403 | the filter and its case split |
| Resolve.FoundExactlyOne | src/commands/catalogDom.ts:370-403 | an element is returned if and only if the address reads and exactly one node answers to it |
| Resolve.ExposedIsFormatted | src/commands/catalogDom.ts:337-367 | every exposed element is addressed as the grammar prints it, below its view container or in its plane, the active plane's chrome by the shorter form as well |
| Resolve.OwnAddressResolves | src/commands/catalogDom.ts:334-403 | with distinct canonical addresses, an address that reads resolves to its own element if its path does not end in a slash, and, no element collected twice, only then |
| Resolve.SlashedChromeIsNotExposed | src/commands/catalogDom.ts:348-357 | host chrome marked `x/` is not found by its own address |
| Resolve.OuterSlashesAreIgnored | src/commands/catalogDom.ts:382-403 | outer slashes never change the answer |
| Resolve.CurrentWindowMayBeOmitted | src/commands/catalogDom.ts:385-403 | leaving out the current window changes the answer if and only if the label cannot stand in an address, the shorter address reads and some marked element answers to it |
| Resolve.BareChromeIsActive | src/commands/catalogDom.ts:343-365 | host chrome answers to its path without project if and only if it is in no project plane or in the active one |
| Resolve.EmptyLabelIsNotRead | src/commands/catalogDom.ts:385-403 | under the empty label, chrome marked `x` is found as `chrome/x` and not exposed under the longer address |
| ComposedTree.ContainsDeep | src/commands/catalogDom.ts:456-464 | true exactly for a shadow-including inclusive ancestor |
| ComposedTree.WalkIsAncestors | src/commands/catalogDom.ts:436-446 | the walk upwards passes exactly the containing elements, each once, inner before outer |
| ComposedTree.DeclaredOwnerChain | src/commands/catalogDom.ts:433-448 | the owners met on the walk, each at its first occurrence |
| ComposedTree.ChainNamesTheContainers | src/commands/catalogDom.ts:427-448 | the chain names exactly the owners declared by elements that contain the start |
| ComposedTree.NearerOwnersComeFirst | src/commands/catalogDom.ts:433-448 | owners met earlier on the walk come first |
| ShellQuote.QuotedTextIsRead | src/commands/releaseOrchestration.ts:7-9 | inside its quotes an escaped text is read back character for character |
| ShellQuote.ShqIsOneWord | src/commands/releaseOrchestration.ts:6-9 | quote removal undoes quoting for every text without NUL, and only for those |
| ShellQuote.LineIsRead | src/commands/releaseOrchestration.ts:26-28 | a line of bare and quoted words is read as exactly their texts |
| ShellQuote.ValidateArgv | src/commands/releaseOrchestration.ts:18-30 | the validate line is read as exactly its six arguments, for all directories without NUL |
| ShellQuote.BuildArgv | src/commands/releaseOrchestration.ts:32-50 | the build line is read as exactly its eleven arguments, for all values without NUL |
| PtyRing.KeptIsLongestFitting | src/commands/catalogPtySession.ts:97-103 | what is kept is the longest suffix of whole chunks that fits the cap, or the last chunk alone |
| PtyRing.KeptIsIncremental | src/commands/catalogPtySession.ts:97-103 | trimming as chunks arrive gives what trimming the whole output would |
| PtyRing.JoinedInOrder | src/commands/catalogPtySession.ts:186-186 | joining chunks keeps their order and each chunk's text |
| PtyRing.SessionState.OnOutput | src/commands/catalogPtySession.ts:93-107 | after every message the ring is that suffix of everything decoded, `ringBytes` its length, and `bytesSeen` the sum of the acknowledgements |
| PtyRing.SessionState.ReadTail | src/commands/catalogPtySession.ts:186-190 | for n at least 1 the longest suffix of the ring with fewer than n newlines; without n, or for less than one line, all of it |
| PtyRing.ReadIsLongest | src/commands/catalogPtySession.ts:186-189 | a read of n lines is the longest suffix with fewer than n newlines |
| PtyRing.ReadsWholeLines | src/commands/catalogPtySession.ts:186-189 | for any positive number that holds if and only if it is at least one; below, everything is read |
| PtyRing.HalfALineIsEverything | src/commands/catalogPtySession.ts:186-189 | half a line of two lines reads both |
| MotionAnchors.AddedAllAt | src/commands/captureMotionAnchors.ts:95-113 | with distinct hosts every target is declared on its host as it was, and no other host changes |
| MotionAnchors.SetIsDeclarative | src/commands/captureMotionAnchors.ts:88-113 | a call forgets every earlier one |
| MotionAnchors.OnlyTheLastCallCounts | src/commands/captureMotionAnchors.ts:88-113 | after any sequence of calls the page is what the last alone would have made |
| MotionAnchors.ClearingRestores | src/commands/captureMotionAnchors.ts:69-113 | setting and clearing restores every host if and only if none had anchor state before |
| MotionAnchors.EarlierAnchorIsLost | src/commands/captureMotionAnchors.ts:69-113 | a host that carried the attribute before has lost it afterwards |
| MotionAnchors.TwiceOnOneHost | src/commands/captureMotionAnchors.ts:95-113 | a host named twice gets its position back if and only if it was not static, or was `relative` inline anyway |
| MotionAnchors.TwiceNamedStaysRelative | src/commands/captureMotionAnchors.ts:95-113 | a static host named twice is `relative` after clearing |
| MotionAnchors.SettleTogether | src/commands/captureMotionAnchors.ts:107-112 | two observers of one host settle on some look if and only if their declarations say the same |
| MotionAnchors.AnchorTables.ApplyDeclaration | src/commands/captureMotionAnchors.ts:52-67 | the host looks as declared; something is written if and only if it did not |
| MotionAnchors.AnchorTables.OnMutation | src/commands/captureMotionAnchors.ts:107-107 | on a host that looks as declared an observer writes nothing, so it does not set itself off |
| MotionAnchors.AnchorTables.RemoveAnchor | src/commands/captureMotionAnchors.ts:69-79 | the host loses its anchor and its entries in both tables together |
| MotionAnchors.AnchorTables.SetCaptureMotionAnchors | src/commands/captureMotionAnchors.ts:88-113 | the call as a function of the page; both tables keep one domain, and with distinct hosts no observer stays attached outside them |
| DaemonAutostart.NamesAreDistinct | src/lib/procfile.ts:23-30 | a Procfile never yields one name twice |
| DaemonAutostart.LastLineWins | src/lib/procfile.ts:23-30 | a name has the command of the last line that declares it |
| DaemonAutostart.Daemons.StartOne | src/commands/catalogDaemon.ts:70-80 | what a start did before a failing host call cut it short |
| DaemonAutostart.Daemons.OnProjectOpen | src/commands/catalogDaemon.ts:448-466 | what an opening did is a prefix of reaping, forgetting, and starting the allowed entries in order |
| DaemonAutostart.OpeningIsSafe | src/commands/catalogDaemon.ts:448-466 | cut anywhere: every started daemon is on record or was the last thing done, only allowed ones were started, and everything recorded earlier was reaped first |
| DaemonAutostart.NoDaemonIsLost | src/commands/catalogDaemon.ts:448-466 | over any number of crashing openings each started daemon was reaped by a later one, is on record, or was its own opening's very last act |
| DaemonAutostart.TwiceDeclaredIsLost | src/commands/catalogDaemon.ts:70-80 | why names must be distinct: the first of two daemons of one name drops out of the record |
| DaemonAutostart.StartsOnlyPermitted | src/commands/catalogDaemon.ts:460-462 | only permitted daemons are started if and only if no declared name is found on Object.prototype |
| DaemonAutostart.UndecidedIsStarted | src/commands/catalogDaemon.ts:460-462 | a daemon called `constructor` that nobody decided about is started |
| PixelStats.SamplesBound | src/commands/catalogCapture.ts:108-131 | the step is the least that fits the cap; the samples times its square stay within the sides lengthened by a step less one |
| PixelStats.CapHoldsIffPaddedAreaFits | src/commands/catalogCapture.ts:108-110 | the cap holds if and only if the area padded to whole steps fits it as well |
| PixelStats.OrdinaryImageBreaksCap | src/commands/catalogCapture.ts:108-110 | an image of 895 by 893 pixels is sampled 200256 times |
| PixelStats.GridAt | src/commands/catalogCapture.ts:117-122 | every grid point is read, line by line, inside the buffer |
| PixelStats.ReadsTheImage | src/commands/catalogCapture.ts:119-122 | what is read at a point is the image's pixel there, for every image the data encodes |
| PixelStats.LuminanceIsWeighted | src/commands/catalogCapture.ts:127-127 | the weights are 0.2126, 0.7152 and 0.0722 of the bytes over 255 |
| PixelStats.SampleRow | src/commands/catalogCapture.ts:118-130 | the inner loop adds exactly one grid line |
| PixelStats.Sample | src/commands/catalogCapture.ts:107-131 | the totals are the summary of exactly the grid points at the chosen step |
| PixelStats.TotalsMeanTheGrid | src/commands/catalogCapture.ts:111-131 | the totals count the grid, the extremes bound every sampled luminance, and the mean lies between them, in exact weights |
| PixelStats.SummaryExtremes | src/commands/catalogCapture.ts:127-129 | the least and the greatest luminance are attained |
| Gutters.ResolveGutter | src/lib/gutterAddress.ts:103-125 | an edge resolves exactly when some seam of its axis is beside the pane on that side, and then to the nearest |
| Gutters.ResolvesToNearest | src/lib/gutterAddress.ts:103-125 | an edge resolves to a seam if and only if the pane is in the area directly before it (right, bottom) or after it (left, top) and inside that area no other seam of the axis has the pane there |
| Gutters.OwnerResolves | src/lib/gutterAddress.ts:69-82 | every seam has an owner, and the owner's edge resolves to that very seam |
| Gutters.ResolvedIsSeam | src/lib/gutterAddress.ts:98-125 | an edge resolves to a seam of a split of its axis in the tree |
| Gutters.CanonicalNamesTheSame | src/lib/gutterAddress.ts:127-140 | the canonical form names the same seam and is its own canonical form |
| Gutters.SizesAreTheNodes | src/commands/catalog.ts:179-187 | the sizes found are those of the split with that id |
| Gutters.ResizeLands | src/state/splitTree.ts:23-37 | new sizes land on their split and nowhere else |
| Gutters.Resize | src/commands/catalog.ts:1725-1730 | only the two shares at the seam change, total and positivity are kept, and the asking side gets exactly its ratio of the pair |
| Gutters.ResolvedKept | src/lib/gutterAddress.ts:103-125 | new sizes do not change what any edge names |
| Gutters.ResizePane | src/commands/catalog.ts:1711-1731 | over the whole tree: resizing by an edge changes the two shares at the nearest seam beside the pane and no other split, every edge keeps its name, and the area that holds the pane reads back the ratio; refused exactly when no seam is there or the ratio is out of range |
| Gutters.SameFromEitherSide | src/commands/catalog.ts:1727-1730 | naming the seam from the other side with the other ratio gives the same sizes |
| Gutters.Equalize | src/commands/catalog.ts:1778-1785 | halves a pair keeping the total, and does nothing to equal halves; or gives all the same share of one |
| Gutters.ParentOfFirstLeaf | src/commands/catalog.ts:161-171 | the split found is the direct parent of the first leaf that holds the view; a root leaf has none |

## Left out

- Messages, hints, titles, traces, media and everything else an outcome carries beside its code and data.
- Parsing of contract strings and SemVer ranges, and the permission names: `Env` decides about them.
- The malformed shapes of broker and context input that only lead to a rejection (a missing array, an unknown
  field): drafts and identities come well-shaped, their contents unchecked.
- `structuredClone` and freezing beyond their effect: the stored command and the issued identity never change.
  A context's coordinates are the values that the clone of its input holds.
- Getters with effects, proxies and exotic arrays; a getter here always yields the same value.
- Handlers that answer with a class instance, or with an array that has named properties: those fields count as absent.
- A handler call is one event: what it does to the registry meanwhile would be further events, and results are
  checked against the broker as it was when the call began, as in the code.
- DOM layout, clocks and frame timing: samples carry an opaque reading. Of the layout journal its entries, their
  phases and the surface acknowledgements; unsubscribing stops its deliveries. Trace requests come with strings.
- `execute` throwing inside the request listener, `awaitCommandHostReady`, and the boot wiring of `startExecutor`.
- `scanNodes`, the walk that finds the nodes inside a view container; marked elements are given.
- Detached trees whose root is an anchor element, whose own `host` property `getRootNode().host` would read.
- The publish script of the release commands, reserved words, aliases and the shell's parsing beyond plain words:
  the reader takes no line with an unquoted special character.
- UTF-8 stream decoding in the PTY path (chunks are given decoded), the session table, and two spawns of one
  session at the same time. An infinite line count is not a real number; the code then reads everything.
- Failures of the style sheet or of the DOM while anchors are set, and the report `setCaptureMotionAnchors` returns.
- The daemon commands other than opening a project; the reading of a Procfile's lines (`src/lib/procfile.ts:15-21`).
- Rounding of the reported statistics, and the empty image, for which the browser hands out no pixels.
- Finding the pane, project and space a gutter command names, and the store's own checks when sizes are set.
