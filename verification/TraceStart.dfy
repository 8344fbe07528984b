/** Starting a multi-DOM trace (src/commands/catalogDom.ts, `ui.trace.multi.start`): the checks in front of
    the table of sessions. */
module TraceStart {
  import opened JsValues
  import opened TraceMachine
  import opened TraceTable
  import Resolve

  const MAX_ADDRESSES: nat := 16
  const DEFAULT_MS: int := 5000

  datatype StartAnswer = Armed(targets: seq<Resolve.Element>) | Invalid | Unresolved(why: Resolve.Resolution)

  /** Between one and sixteen addresses, none empty, none twice, and a lifetime that is positive if given. */
  predicate RequestOk(addresses: seq<string>, maxMs: Option<int>) {
    && 1 <= |addresses| <= MAX_ADDRESSES
    && (forall i :: 0 <= i < |addresses| ==> addresses[i] != "")
    && (forall i, j :: 0 <= i < j < |addresses| ==> addresses[i] != addresses[j])
    && (maxMs.Some? ==> maxMs.value > 0)
  }

  /** The first `n` addresses resolve, to these elements. */
  predicate Resolves(win: string, nodes: seq<Resolve.Node>, addresses: seq<string>, n: nat, targets: seq<Resolve.Element>)
    requires n <= |addresses|
  {
    |targets| == n && forall i :: 0 <= i < n ==> Resolve.Resolved(win, nodes, addresses[i]) == Resolve.Found(targets[i])
  }

  /** Address `i` is the first that does not resolve, for this reason. */
  ghost predicate FailsAt(
    win: string, nodes: seq<Resolve.Node>, addresses: seq<string>, i: nat, why: Resolve.Resolution)
  {
    && i < |addresses| && !why.Found? && Resolve.Resolved(win, nodes, addresses[i]) == why
    && forall j :: 0 <= j < i ==> Resolve.Resolved(win, nodes, addresses[j]).Found?
  }

  method CheckRequest(addresses: seq<string>, maxMs: Option<int>) returns (ok: bool)
    ensures ok <==> RequestOk(addresses, maxMs)
  {
    if |addresses| < 1 || |addresses| > MAX_ADDRESSES { return false; }
    var seen: set<string> := {};
    var i := 0;
    while i < |addresses|
      invariant 0 <= i <= |addresses| && seen == set j | 0 <= j < i :: addresses[j]
      invariant forall j :: 0 <= j < i ==> addresses[j] != ""
      invariant forall j, k :: 0 <= j < k < i ==> addresses[j] != addresses[k]
    {
      if addresses[i] == "" || addresses[i] in seen { return false; }
      seen := seen + {addresses[i]};
      i := i + 1;
    }
    ok := maxMs.None? || maxMs.value > 0;
  }

  method ResolveAll(win: string, nodes: seq<Resolve.Node>, addresses: seq<string>)
    returns (targets: seq<Resolve.Element>, failure: Option<Resolve.Resolution>)
    ensures failure.None? ==> Resolves(win, nodes, addresses, |addresses|, targets)
    ensures failure.Some? ==> exists i: nat :: FailsAt(win, nodes, addresses, i, failure.value)
  {
    targets := [];
    var i := 0;
    while i < |addresses|
      invariant 0 <= i <= |addresses| && Resolves(win, nodes, addresses, i, targets)
    {
      var found := Resolve.ResolveExposed(win, nodes, addresses[i]);
      if !found.Found? {
        assert FailsAt(win, nodes, addresses, i, found);
        return targets, Some(found);
      }
      targets := targets + [found.el];
      i := i + 1;
    }
    failure := None;
  }

  /** A start arms one session exactly when the request is sound, every address resolves and there is room;
      otherwise nothing changes, and the first address that fails is the answer. */
  method StartMulti(
    recorder: Recorder, win: string, nodes: seq<Resolve.Node>, addresses: seq<string>,
    maxMs: Option<int>, interval: Option<bool>, id: string, startedAt: int, reading: int) returns (r: StartAnswer)
    requires recorder.Valid() && id !in recorder.all
    modifies recorder
    ensures recorder.Valid()
    ensures r.Armed? ==> RequestOk(addresses, maxMs) && Resolves(win, nodes, addresses, |addresses|, r.targets)
    ensures r.Unresolved? ==> RequestOk(addresses, maxMs) && exists i: nat :: FailsAt(win, nodes, addresses, i, r.why)
    ensures r.Invalid? ==>
      || !RequestOk(addresses, maxMs)
      || ((forall i :: 0 <= i < |addresses| ==> Resolve.Resolved(win, nodes, addresses[i]).Found?)
          && |old(recorder.View()).listed| >= MAX_SESSIONS)
    ensures r.Armed? ==> |old(recorder.View()).listed| < MAX_SESSIONS
    ensures recorder.View() ==
      if r.Armed? then
        Apply(old(recorder.View()), Start(id, startedAt, if maxMs.Some? then maxMs.value else DEFAULT_MS,
                                          if interval.Some? then interval.value else true, reading))
      else old(recorder.View())
  {
    var ok := CheckRequest(addresses, maxMs);
    if !ok { return Invalid; }
    var targets, failure := ResolveAll(win, nodes, addresses);
    if failure.Some? { return Unresolved(failure.value); }
    var lifetime := if maxMs.Some? then maxMs.value else DEFAULT_MS;
    ok := recorder.StartTrace(id, startedAt, lifetime, if interval.Some? then interval.value else true, reading);
    r := if ok then Armed(targets) else Invalid;
  }
}
