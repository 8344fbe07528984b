/** Delivering requests to the command executor (src/commands/executor.ts) and completing their
    replies (src/commands/commandReplyTransaction.ts), as steps between the points where the code
    awaits. Deliveries may repeat; requests run concurrently. */
module Delivery {
  type Id = nat
  type Task = nat

  datatype Phase =
    | Parked              // awaiting the host-ready gate
    | Executing
    | Replying            // the command's result is on its way to the caller
    | Draining(next: nat) // the reply arrived; running after-reply task number `next`
    | Drained
    | ReplyFailed

  datatype Request = Request(known: bool, phase: Phase, tasks: seq<Task>, ran: seq<Task>)

  datatype Action =
    | BecameReady
    | Started(id: Id)
    | Replied(id: Id)
    | FailedToReply(id: Id)
    | Ran(id: Id, task: Task)

  /** `requests` holds one entry for every id in `served`; `known` says whether its command was
      registered when it was delivered. */
  datatype State = State(hostReady: bool, registered: set<string>, requests: map<Id, Request>, log: seq<Action>)

  const BOOTING: State := State(false, {}, map[], [])

  datatype Event =
    | Deliver(id: Id, command: string)
    | MarkReady
    | Register(command: string)
    | Unregister(command: string)
    | Release(id: Id)                    // the gate's promise resumes one parked request
    | AddTask(id: Id, task: Task)        // ctx.afterReply, whenever the handler's side calls it
    | Finish(id: Id)                     // the command settled; the reply goes out
    | ReplyArrives(id: Id)
    | ReplyBreaks(id: Id)
    | RunTask(id: Id, fails: bool)
    | EndDrain(id: Id)

  predicate Is(st: State, id: Id, phase: Phase) {
    id in st.requests && st.requests[id].phase == phase
  }

  predicate IsDraining(st: State, id: Id) {
    id in st.requests && st.requests[id].phase.Draining?
  }

  /** The step can happen now. */
  predicate Enabled(st: State, ev: Event) {
    match ev
    case Release(id) => st.hostReady && Is(st, id, Parked)
    case AddTask(id, _) => id in st.requests && !st.requests[id].phase.Parked?
    case Finish(id) => Is(st, id, Executing)
    case ReplyArrives(id) => Is(st, id, Replying)
    case ReplyBreaks(id) => Is(st, id, Replying)
    case RunTask(id, _) => IsDraining(st, id) && st.requests[id].phase.next < |st.requests[id].tasks|
    case EndDrain(id) => IsDraining(st, id) && st.requests[id].phase.next >= |st.requests[id].tasks|
    case _ => true
  }

  function Moved(st: State, id: Id, phase: Phase): State
    requires id in st.requests
  {
    st.(requests := st.requests[id := st.requests[id].(phase := phase)])
  }

  function Logged(st: State, a: Action): State {
    st.(log := st.log + [a])
  }

  function Step(st: State, ev: Event): State {
    if !Enabled(st, ev) then st
    else
      match ev
      case Deliver(id, command) =>
        if id in st.requests then st
        else
          var known := command in st.registered;
          if !st.hostReady && !known then st.(requests := st.requests[id := Request(known, Parked, [], [])])
          else Logged(st.(requests := st.requests[id := Request(known, Executing, [], [])]), Started(id))
      case MarkReady => Logged(st.(hostReady := true), BecameReady)
      case Register(command) => st.(registered := st.registered + {command})
      case Unregister(command) => st.(registered := st.registered - {command})
      case Release(id) => Logged(Moved(st, id, Executing), Started(id))
      case AddTask(id, task) =>
        st.(requests := st.requests[id := st.requests[id].(tasks := st.requests[id].tasks + [task])])
      case Finish(id) => Moved(st, id, Replying)
      case ReplyArrives(id) => Logged(Moved(st, id, Draining(0)), Replied(id))
      case ReplyBreaks(id) => Logged(Moved(st, id, ReplyFailed), FailedToReply(id))
      case RunTask(id, fails) =>
        var r := st.requests[id];
        var task := r.tasks[r.phase.next];
        Logged(st.(requests := st.requests[id := r.(phase := Draining(r.phase.next + 1), ran := r.ran + [task])]), Ran(id, task))
      case EndDrain(id) => Moved(st, id, Drained)
  }

  function Run(events: seq<Event>): State {
    if |events| == 0 then BOOTING else Step(Run(events[..|events| - 1]), events[|events| - 1])
  }

  // ---------------------------------------------------------------- what the log must look like

  function Times(log: seq<Action>, a: Action): nat {
    if |log| == 0 then 0 else Times(log[..|log| - 1], a) + if log[|log| - 1] == a then 1 else 0
  }

  /** Action `log[j]` comes after what must come before it. */
  predicate InOrder(st: State, j: nat)
    requires j < |st.log|
  {
    match st.log[j]
    case BecameReady => true
    case Started(id) => id in st.requests && (st.requests[id].known || BecameReady in st.log[..j])
    case Replied(id) => Started(id) in st.log[..j]
    case FailedToReply(id) => Started(id) in st.log[..j]
    case Ran(id, _) => Replied(id) in st.log[..j]
  }

  /** How often each action of a request has happened, by its phase. */
  predicate Counted(log: seq<Action>, id: Id, r: Request) {
    && Times(log, Started(id)) == (if r.phase.Parked? then 0 else 1)
    && Times(log, Replied(id)) == (if r.phase.Draining? || r.phase.Drained? then 1 else 0)
    && Times(log, FailedToReply(id)) == (if r.phase.ReplyFailed? then 1 else 0)
  }

  /** The tasks that ran are the first ones registered. */
  predicate RanInOrder(r: Request) {
    match r.phase
    case Draining(next) => next <= |r.tasks| && r.ran == r.tasks[..next]
    case Drained => r.ran <= r.tasks
    case _ => r.ran == []
  }

  predicate RequestOk(log: seq<Action>, id: Id, r: Request) {
    && Counted(log, id, r)
    && RanInOrder(r)
    && (r.phase.Parked? ==> !r.known && r.tasks == [])
    && TasksLogged(log, id) == r.ran
  }

  /** The tasks of one request, in the order they ran. */
  function TasksLogged(log: seq<Action>, id: Id): seq<Task> {
    if |log| == 0 then []
    else
      var before, last := TasksLogged(log[..|log| - 1], id), log[|log| - 1];
      if last.Ran? && last.id == id then before + [last.task] else before
  }

  predicate OfUnknown(st: State, a: Action) {
    !a.BecameReady? && a.id !in st.requests
  }

  ghost predicate Sound(st: State) {
    && (st.hostReady <==> BecameReady in st.log)
    && (forall id :: id in st.requests ==> RequestOk(st.log, id, st.requests[id]))
    && (forall j :: 0 <= j < |st.log| ==> InOrder(st, j) && !OfUnknown(st, st.log[j]))
  }

  // ---------------------------------------------------------------- every step keeps it

  lemma {:induction false} OneMoreAction(log: seq<Action>, a: Action, id: Id)
    ensures Times(log + [a], Started(id)) == Times(log, Started(id)) + if a == Started(id) then 1 else 0
    ensures Times(log + [a], Replied(id)) == Times(log, Replied(id)) + if a == Replied(id) then 1 else 0
    ensures Times(log + [a], FailedToReply(id)) == Times(log, FailedToReply(id)) + if a == FailedToReply(id) then 1 else 0
    ensures TasksLogged(log + [a], id) ==
            if a.Ran? && a.id == id then TasksLogged(log, id) + [a.task] else TasksLogged(log, id)
  {
    assert (log + [a])[..|log|] == log;
  }

  lemma {:induction false} TimesMeansIn(log: seq<Action>, a: Action)
    ensures Times(log, a) > 0 <==> a in log
  {
    if |log| == 0 {
    } else {
      TimesMeansIn(log[..|log| - 1], a);
      assert log == log[..|log| - 1] + [log[|log| - 1]];
    }
  }

  lemma {:induction false} UnknownIsUnlogged(st: State, log: seq<Action>, id: Id)
    requires id !in st.requests && forall a :: a in log ==> !OfUnknown(st, a)
    ensures TasksLogged(log, id) == []
    ensures Times(log, Started(id)) == 0 && Times(log, Replied(id)) == 0 && Times(log, FailedToReply(id)) == 0
  {
    if |log| == 0 {
    } else {
      assert log[|log| - 1] in log;
      UnknownIsUnlogged(st, log[..|log| - 1], id);
    }
  }

  /** One request moved, and perhaps one action of its own was logged. */
  ghost predicate Moves(st: State, st': State, id: Id) {
    && st'.hostReady == st.hostReady
    && id in st'.requests
    && st'.requests == st.requests[id := st'.requests[id]]
    && (id in st.requests ==> st'.requests[id].known == st.requests[id].known)
    && (st'.log == st.log ||
        (exists a :: st'.log == st.log + [a] && !a.BecameReady? && a.id == id))
  }

  lemma {:induction false} OthersUntouched(log: seq<Action>, a: Action, id: Id, r: Request)
    requires RequestOk(log, id, r) && (a.BecameReady? || a.id != id)
    ensures RequestOk(log + [a], id, r)
  {
    OneMoreAction(log, a, id);
  }

  /** Earlier actions stay in order when requests are only added or moved. */
  lemma {:induction false} EarlierInOrder(st: State, st': State, j: nat)
    requires j < |st.log| && st.log <= st'.log && InOrder(st, j) && !OfUnknown(st, st.log[j])
    requires forall id :: id in st.requests ==> id in st'.requests && st'.requests[id].known == st.requests[id].known
    ensures InOrder(st', j) && !OfUnknown(st', st'.log[j])
  {
    assert st'.log[..j] == st.log[..j];
  }

  lemma {:induction false} MoveIsSound(st: State, st': State, id: Id)
    requires Sound(st) && Moves(st, st', id) && RequestOk(st'.log, id, st'.requests[id])
    requires |st'.log| > |st.log| ==> InOrder(st', |st.log|)
    ensures Sound(st')
  {
    forall other | other in st'.requests ensures RequestOk(st'.log, other, st'.requests[other]) {
      if other != id {
        assert RequestOk(st.log, other, st.requests[other]);
        if st'.log != st.log {
          var a :| st'.log == st.log + [a] && !a.BecameReady? && a.id == id;
          OthersUntouched(st.log, a, other, st.requests[other]);
        }
      }
    }
    forall j | 0 <= j < |st'.log| ensures InOrder(st', j) && !OfUnknown(st', st'.log[j]) {
      if j < |st.log| { EarlierInOrder(st, st', j); }
    }
  }

  lemma {:induction false} DeliverIsSound(st: State, id: Id, command: string)
    requires Sound(st)
    ensures Sound(Step(st, Deliver(id, command)))
  {
    if id !in st.requests {
      var st' := Step(st, Deliver(id, command));
      UnknownIsUnlogged(st, st.log, id);
      OneMoreAction(st.log, Started(id), id);
      if |st'.log| > |st.log| { assert st'.log[..|st.log|] == st.log; }
      MoveIsSound(st, st', id);
    }
  }

  lemma {:induction false} ReadyIsSound(st: State)
    requires Sound(st)
    ensures Sound(Step(st, MarkReady))
  {
    var st' := Step(st, MarkReady);
    forall id | id in st'.requests ensures RequestOk(st'.log, id, st'.requests[id]) {
      OthersUntouched(st.log, BecameReady, id, st.requests[id]);
    }
    forall j | 0 <= j < |st'.log| ensures InOrder(st', j) && !OfUnknown(st', st'.log[j]) {
      if j < |st.log| { EarlierInOrder(st, st', j); }
    }
  }

  /** The request an event moves on. */
  predicate MovesOn(ev: Event, id: Id) {
    match ev
    case Release(i) => i == id
    case AddTask(i, _) => i == id
    case Finish(i) => i == id
    case ReplyArrives(i) => i == id
    case ReplyBreaks(i) => i == id
    case RunTask(i, _) => i == id
    case EndDrain(i) => i == id
    case _ => false
  }

  lemma {:induction false} QuietMoveIsOk(st: State, ev: Event, id: Id)
    requires Enabled(st, ev) && MovesOn(ev, id) && RequestOk(st.log, id, st.requests[id])
    requires (ev.AddTask? || ev.Finish? || ev.EndDrain?)
    ensures var st' := Step(st, ev);
      Moves(st, st', id) && RequestOk(st'.log, id, st'.requests[id])
  {
    var r := st.requests[id];
    if ev.AddTask? && r.phase.Draining? {
      assert (r.tasks + [ev.task])[..r.phase.next] == r.tasks[..r.phase.next];
    }
  }

  lemma {:induction false} TaskMoveIsOk(st: State, id: Id, fails: bool)
    requires Enabled(st, RunTask(id, fails)) && RequestOk(st.log, id, st.requests[id])
    ensures var st' := Step(st, RunTask(id, fails));
      Moves(st, st', id) && RequestOk(st'.log, id, st'.requests[id])
  {
    var r := st.requests[id];
    var a := Ran(id, r.tasks[r.phase.next]);
    OneMoreAction(st.log, a, id);
    assert Step(st, RunTask(id, fails)).log == st.log + [a];
    assert r.tasks[..r.phase.next] + [r.tasks[r.phase.next]] == r.tasks[..r.phase.next + 1];
  }

  lemma {:induction false} ReleaseIsOk(st: State, id: Id)
    requires Enabled(st, Release(id)) && RequestOk(st.log, id, st.requests[id])
    ensures var st' := Step(st, Release(id));
      Moves(st, st', id) && RequestOk(st'.log, id, st'.requests[id])
  {
    assert Step(st, Release(id)).log == st.log + [Started(id)];
    OneMoreAction(st.log, Started(id), id);
  }

  lemma {:induction false} ArrivalIsOk(st: State, id: Id)
    requires Enabled(st, ReplyArrives(id)) && RequestOk(st.log, id, st.requests[id])
    ensures var st' := Step(st, ReplyArrives(id));
      Moves(st, st', id) && RequestOk(st'.log, id, st'.requests[id])
  {
    assert Step(st, ReplyArrives(id)).log == st.log + [Replied(id)];
    OneMoreAction(st.log, Replied(id), id);
  }

  lemma {:induction false} BreakIsOk(st: State, id: Id)
    requires Enabled(st, ReplyBreaks(id)) && RequestOk(st.log, id, st.requests[id])
    ensures var st' := Step(st, ReplyBreaks(id));
      Moves(st, st', id) && RequestOk(st'.log, id, st'.requests[id])
  {
    assert Step(st, ReplyBreaks(id)).log == st.log + [FailedToReply(id)];
    OneMoreAction(st.log, FailedToReply(id), id);
  }

  lemma {:induction false} MovedRequestIsOk(st: State, ev: Event, id: Id)
    requires Sound(st) && Enabled(st, ev) && MovesOn(ev, id)
    ensures var st' := Step(st, ev);
      Moves(st, st', id) && RequestOk(st'.log, id, st'.requests[id])
  {
    assert RequestOk(st.log, id, st.requests[id]);
    match ev
    case RunTask(_, fails) => TaskMoveIsOk(st, id, fails);
    case AddTask(_, _) => QuietMoveIsOk(st, ev, id);
    case Finish(_) => QuietMoveIsOk(st, ev, id);
    case EndDrain(_) => QuietMoveIsOk(st, ev, id);
    case Release(_) => ReleaseIsOk(st, id);
    case ReplyArrives(_) => ArrivalIsOk(st, id);
    case ReplyBreaks(_) => BreakIsOk(st, id);
  }

  lemma {:induction false} MovedActionIsInOrder(st: State, ev: Event, id: Id)
    requires Sound(st) && Enabled(st, ev) && MovesOn(ev, id)
    ensures |Step(st, ev).log| > |st.log| ==> InOrder(Step(st, ev), |st.log|)
  {
    var st' := Step(st, ev);
    assert RequestOk(st.log, id, st.requests[id]);
    if |st'.log| > |st.log| {
      assert st'.log[..|st.log|] == st.log;
      TimesMeansIn(st.log, Started(id));
      TimesMeansIn(st.log, Replied(id));
    }
  }

  lemma {:induction false} StepIsSound(st: State, ev: Event)
    requires Sound(st)
    ensures Sound(Step(st, ev))
  {
    if Enabled(st, ev) {
      match ev
      case Deliver(id, command) => DeliverIsSound(st, id, command);
      case MarkReady => ReadyIsSound(st);
      case Register(_) => SameLogIsSound(st, Step(st, ev));
      case Unregister(_) => SameLogIsSound(st, Step(st, ev));
      case _ =>
        var id := ev.id;
        MovedRequestIsOk(st, ev, id);
        MovedActionIsInOrder(st, ev, id);
        MoveIsSound(st, Step(st, ev), id);
    }
  }

  lemma {:induction false} SameLogIsSound(st: State, st': State)
    requires Sound(st) && st' == st.(registered := st'.registered)
    ensures Sound(st')
  {
    forall id | id in st'.requests ensures RequestOk(st'.log, id, st'.requests[id]) {
      assert RequestOk(st.log, id, st.requests[id]);
    }
    forall j | 0 <= j < |st'.log| ensures InOrder(st', j) && !OfUnknown(st', st'.log[j]) {
      EarlierInOrder(st, st', j);
    }
  }

  lemma {:induction false} EveryRunIsSound(events: seq<Event>)
    ensures Sound(Run(events))
  {
    if |events| == 0 {
    } else {
      EveryRunIsSound(events[..|events| - 1]);
      StepIsSound(Run(events[..|events| - 1]), events[|events| - 1]);
    }
  }

  // ---------------------------------------------------------------- what callers rely on

  /** Whenever `b` has happened, `a` had happened before it. */
  predicate Before(log: seq<Action>, a: Action, b: Action) {
    forall j :: 0 <= j < |log| && log[j] == b ==> a in log[..j]
  }

  /** However often a request is delivered, it starts at most once, it is answered at most once, and what
      was not registered at its delivery starts only after the host became ready. */
  lemma {:induction false} ServedOnce(events: seq<Event>, id: Id)
    ensures var st := Run(events);
      && Times(st.log, Started(id)) <= 1
      && Times(st.log, Replied(id)) + Times(st.log, FailedToReply(id)) <= Times(st.log, Started(id))
      && (id in st.requests && !st.requests[id].known ==> Before(st.log, BecameReady, Started(id)))
  {
    EveryRunIsSound(events);
    var st := Run(events);
    if id in st.requests {
      assert RequestOk(st.log, id, st.requests[id]);
      forall j | 0 <= j < |st.log| && st.log[j] == Started(id) && !st.requests[id].known
        ensures BecameReady in st.log[..j]
      {
        assert InOrder(st, j);
      }
    } else {
      UnknownIsUnlogged(st, st.log, id);
    }
  }

  /** The request started although the host was not ready yet. */
  predicate StartedEarly(log: seq<Action>, id: Id) {
    exists j :: 0 <= j < |log| && log[j] == Started(id) && BecameReady !in log[..j]
  }

  /** Event number `k` is the first delivery of the request. */
  predicate FirstDelivery(events: seq<Event>, id: Id, k: nat) {
    && k < |events| && events[k].Deliver? && events[k].id == id
    && forall i :: 0 <= i < k ==> !(events[i].Deliver? && events[i].id == id)
  }

  /** It came before the host was ready, for a command that was registered. */
  predicate KnownEarly(events: seq<Event>, id: Id, k: nat) {
    && FirstDelivery(events, id, k)
    && !Run(events[..k]).hostReady && events[k].command in Run(events[..k]).registered
  }

  lemma {:induction false} EarlyOneMore(log: seq<Action>, a: Action, id: Id)
    ensures StartedEarly(log + [a], id) <==> StartedEarly(log, id) || (a == Started(id) && BecameReady !in log)
  {
    var more := log + [a];
    assert more[..|log|] == log;
    if StartedEarly(log, id) {
      var j :| 0 <= j < |log| && log[j] == Started(id) && BecameReady !in log[..j];
      assert more[j] == Started(id) && more[..j] == log[..j];
    }
    if StartedEarly(more, id) {
      var j :| 0 <= j < |more| && more[j] == Started(id) && BecameReady !in more[..j];
      if j < |log| { assert log[j] == Started(id) && log[..j] == more[..j]; }
    }
    if a == Started(id) && BecameReady !in log { assert more[|log|] == Started(id); }
  }

  lemma {:induction false} RequestsAreDelivered(events: seq<Event>, id: Id)
    ensures id in Run(events).requests <==> exists k :: 0 <= k < |events| && events[k].Deliver? && events[k].id == id
  {
    if |events| == 0 {
    } else {
      var n := |events| - 1;
      RequestsAreDelivered(events[..n], id);
      if exists k :: 0 <= k < n && events[k].Deliver? && events[k].id == id {
        var k :| 0 <= k < n && events[k].Deliver? && events[k].id == id;
        assert events[..n][k] == events[k];
      }
    }
  }

  /** What one event has to do with an early start. */
  lemma {:induction false} EarlyStep(st: State, ev: Event, id: Id)
    requires st.hostReady <==> BecameReady in st.log
    ensures StartedEarly(Step(st, ev).log, id) <==>
      || StartedEarly(st.log, id)
      || (ev.Deliver? && ev.id == id && id !in st.requests && !st.hostReady && ev.command in st.registered)
  {
    var after := Step(st, ev);
    if after.log != st.log { EarlyOneMore(st.log, after.log[|st.log|], id); }
  }

  lemma {:induction false} KnownEarlyOneMore(events: seq<Event>, id: Id, k: nat)
    requires |events| > 0 && k < |events| - 1
    ensures KnownEarly(events, id, k) <==> KnownEarly(events[..|events| - 1], id, k)
  {
    assert events[..|events| - 1][..k] == events[..k];
  }

  lemma {:induction false} KnownEarlyNow(events: seq<Event>, id: Id)
    requires |events| > 0
    ensures var n := |events| - 1; var st, ev := Run(events[..n]), events[n];
      KnownEarly(events, id, n) <==>
      ev.Deliver? && ev.id == id && id !in st.requests && !st.hostReady && ev.command in st.registered
  {
    var n := |events| - 1;
    RequestsAreDelivered(events[..n], id);
    assert forall i :: 0 <= i < n ==> events[..n][i] == events[i];
  }

  /** Over every run, a request starts before the host is ready exactly when its first delivery came before
      that, for a command already registered: those requests, and only those, do not wait. */
  lemma {:induction false} StartsEarlyExactly(events: seq<Event>, id: Id)
    ensures StartedEarly(Run(events).log, id) <==> exists k: nat :: KnownEarly(events, id, k)
  {
    if |events| == 0 {
    } else {
      var n := |events| - 1;
      StartsEarlyExactly(events[..n], id);
      EveryRunIsSound(events[..n]);
      EarlyStep(Run(events[..n]), events[n], id);
      KnownEarlyNow(events, id);
      forall k: nat | k < n ensures KnownEarly(events, id, k) <==> KnownEarly(events[..n], id, k) {
        KnownEarlyOneMore(events, id, k);
      }
      if exists k: nat :: KnownEarly(events[..n], id, k) {
        var k: nat :| KnownEarly(events[..n], id, k);
        assert KnownEarly(events, id, k);
      }
    }
  }

  /** A core command delivered while the plugins are still activated starts at once. */
  lemma CoreCommandDoesNotWait()
    ensures Run([Register("state.tree"), Deliver(7, "state.tree")]).log == [Started(7)]
  {
    var a, b := Register("state.tree"), Deliver(7, "state.tree");
    assert [a, b][..1] == [a] && [a][..0] == [];
    assert Run([]) == BOOTING;
    assert Run([a]) == Step(BOOTING, a);
  }

  /** A request's after-reply tasks run only once its reply has arrived, one after the other in the order
      of registration, each once; when the drain is over none registered until then is missing. */
  lemma {:induction false} TasksFollowReply(events: seq<Event>, id: Id, task: Task)
    ensures var st := Run(events);
      && Before(st.log, Replied(id), Ran(id, task))
      && (id in st.requests ==> TasksLogged(st.log, id) <= st.requests[id].tasks)
      && (id in st.requests && st.requests[id].phase.ReplyFailed? ==> TasksLogged(st.log, id) == [])
      && (Enabled(st, EndDrain(id)) ==> TasksLogged(st.log, id) == st.requests[id].tasks)
  {
    EveryRunIsSound(events);
    var st := Run(events);
    if id in st.requests { assert RequestOk(st.log, id, st.requests[id]); }
    forall j | 0 <= j < |st.log| && st.log[j] == Ran(id, task) ensures Replied(id) in st.log[..j] {
      assert InOrder(st, j);
    }
  }

  function RunFrom(st: State, events: seq<Event>): State {
    if |events| == 0 then st else Step(RunFrom(st, events[..|events| - 1]), events[|events| - 1])
  }

  /** After the drain is over, or the reply broke, nothing more runs: a task registered then never does. */
  lemma {:induction false} SettledIsOver(st: State, id: Id, events: seq<Event>)
    requires id in st.requests && (st.requests[id].phase.Drained? || st.requests[id].phase.ReplyFailed?)
    ensures var end := RunFrom(st, events);
      id in end.requests && end.requests[id].phase == st.requests[id].phase && end.requests[id].ran == st.requests[id].ran
  {
    if |events| == 0 {
    } else {
      SettledIsOver(st, id, events[..|events| - 1]);
    }
  }

  /** Event number `k` registers a task for the request. */
  predicate Registered(events: seq<Event>, id: Id, k: nat) {
    k < |events| && events[k].AddTask? && events[k].id == id && Enabled(Run(events[..k]), events[k])
  }

  predicate RegisteredLate(events: seq<Event>, id: Id, k: nat) {
    Registered(events, id, k) && Is(Run(events[..k]), id, Drained)
  }

  ghost predicate AnyLate(events: seq<Event>, id: Id) {
    exists k: nat :: RegisteredLate(events, id, k)
  }

  ghost predicate AnyRegistered(events: seq<Event>, id: Id) {
    exists k: nat :: Registered(events, id, k)
  }

  lemma {:induction false} LateOneMore(events: seq<Event>, id: Id)
    requires |events| > 0
    ensures var n := |events| - 1;
      && (AnyLate(events, id) <==> AnyLate(events[..n], id) || RegisteredLate(events, id, n))
      && (AnyRegistered(events, id) <==> AnyRegistered(events[..n], id) || Registered(events, id, n))
  {
    var n := |events| - 1;
    forall k: nat | k < n ensures Registered(events, id, k) <==> Registered(events[..n], id, k)
                          ensures RegisteredLate(events, id, k) <==> RegisteredLate(events[..n], id, k)
    {
      assert events[..n][..k] == events[..k];
    }
    if AnyLate(events[..n], id) {
      var k: nat :| RegisteredLate(events[..n], id, k);
      assert RegisteredLate(events, id, k);
    }
    if AnyRegistered(events[..n], id) {
      var k: nat :| Registered(events[..n], id, k);
      assert Registered(events, id, k);
    }
  }

  lemma {:induction false} NoneLateBefore(events: seq<Event>, id: Id)
    requires id !in Run(events).requests || Run(events).requests[id].phase != Drained
    ensures !AnyLate(events, id)
  {
    if |events| == 0 {
    } else {
      LateOneMore(events, id);
      NoneLateBefore(events[..|events| - 1], id);
    }
  }

  /** The tasks of a request that never run: those registered after the drain was over. */
  ghost predicate LostExactly(events: seq<Event>, id: Id)
    requires id in Run(events).requests
  {
    var r := Run(events).requests[id];
    && (r.phase.Drained? ==> r.ran <= r.tasks && (r.ran == r.tasks <==> !AnyLate(events, id)))
    && (r.phase.ReplyFailed? ==> r.ran == [] && (r.tasks == [] <==> !AnyRegistered(events, id)))
  }

  lemma {:induction false} DrainIsEntered(st: State, ev: Event, id: Id)
    requires id in st.requests ==> RequestOk(st.log, id, st.requests[id])
    requires !Is(st, id, Drained) && Is(Step(st, ev), id, Drained)
    ensures ev == EndDrain(id) && Step(st, ev).requests[id].ran == Step(st, ev).requests[id].tasks
  {
  }

  lemma {:induction false} DrainIsLeftAlone(st: State, ev: Event, id: Id)
    requires Is(st, id, Drained)
    ensures Is(Step(st, ev), id, Drained) && Step(st, ev).requests[id].ran == st.requests[id].ran
    ensures Step(st, ev).requests[id].tasks ==
            st.requests[id].tasks + if ev.AddTask? && ev.id == id then [ev.task] else []
  {
  }

  lemma {:induction false} DrainedStep(events: seq<Event>, id: Id)
    requires |events| > 0 && Sound(Run(events[..|events| - 1])) && Is(Run(events), id, Drained)
    requires Is(Run(events[..|events| - 1]), id, Drained) ==> LostExactly(events[..|events| - 1], id)
    ensures LostExactly(events, id)
  {
    var n := |events| - 1;
    var st, ev := Run(events[..n]), events[n];
    LateOneMore(events, id);
    if Is(st, id, Drained) {
      DrainIsLeftAlone(st, ev, id);
    } else {
      if id in st.requests { assert RequestOk(st.log, id, st.requests[id]); }
      DrainIsEntered(st, ev, id);
      NoneLateBefore(events[..n], id);
    }
  }

  lemma {:induction false} TasksAreRegistered(events: seq<Event>, id: Id)
    requires id in Run(events).requests
    ensures Run(events).requests[id].tasks == [] <==> !AnyRegistered(events, id)
  {
    var n := |events| - 1;
    LateOneMore(events, id);
    if id in Run(events[..n]).requests {
      TasksAreRegistered(events[..n], id);
    } else {
      NoneRegisteredBefore(events[..n], id);
    }
  }

  lemma {:induction false} NoneRegisteredBefore(events: seq<Event>, id: Id)
    requires id !in Run(events).requests
    ensures !AnyRegistered(events, id)
  {
    if |events| == 0 {
    } else {
      LateOneMore(events, id);
      NoneRegisteredBefore(events[..|events| - 1], id);
    }
  }

  /** Over every run: a task registered while the reply or the drain is under way runs; one registered after
      the drain never does, and after a broken reply none does. */
  lemma {:induction false} LateTasksAreLost(events: seq<Event>, id: Id)
    requires id in Run(events).requests
    ensures LostExactly(events, id)
  {
    EveryRunIsSound(events);
    assert RequestOk(Run(events).log, id, Run(events).requests[id]);
    TasksAreRegistered(events, id);
    var n := |events| - 1;
    if Is(Run(events), id, Drained) {
      EveryRunIsSound(events[..n]);
      if Is(Run(events[..n]), id, Drained) { LateTasksAreLost(events[..n], id); }
      DrainedStep(events, id);
    }
  }

  ghost function ParkedIds(st: State): set<Id> {
    set id | id in st.requests && st.requests[id].phase.Parked?
  }

  /** Once the host is ready nothing parks any more. */
  lemma {:induction false} ParkedOnlyShrinks(st: State, ev: Event)
    requires st.hostReady
    ensures Step(st, ev).hostReady && ParkedIds(Step(st, ev)) <= ParkedIds(st)
  {
  }

  /** And every parked request can be released, which takes exactly it out. */
  lemma {:induction false} ReleaseIsEnabled(st: State, id: Id)
    requires st.hostReady && id in ParkedIds(st)
    ensures Enabled(st, Release(id))
    ensures ParkedIds(Step(st, Release(id))) == ParkedIds(st) - {id}
    ensures |ParkedIds(Step(st, Release(id)))| < |ParkedIds(st)|
  {
    assert ParkedIds(Step(st, Release(id))) == ParkedIds(st) - {id};
  }
}
