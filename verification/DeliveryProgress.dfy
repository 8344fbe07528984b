/** Requests get answered (src/commands/executor.ts, src/commands/commandReplyTransaction.ts): from every moment
    on a request can be brought to its end, nobody else can take a step away from it, and its own steps run out. */
module DeliveryProgress {
  import opened JsValues
  import opened Delivery
  import opened Executor

  predicate Settled(st: State, id: Id) {
    Is(st, id, Drained) || Is(st, id, ReplyFailed)
  }

  /** Every event moves this request on, so all others stay as they are. */
  predicate Own(events: seq<Event>, id: Id) {
    forall i :: 0 <= i < |events| ==> MovesOn(events[i], id)
  }

  lemma {:induction false} RunIsSound(st: State, events: seq<Event>)
    requires Sound(st)
    ensures Sound(RunFrom(st, events))
  {
    if |events| == 0 {
    } else {
      RunIsSound(st, events[..|events| - 1]);
      StepIsSound(RunFrom(st, events[..|events| - 1]), events[|events| - 1]);
    }
  }

  lemma {:induction false} StepFirst(st: State, ev: Event, events: seq<Event>)
    ensures RunFrom(st, [ev] + events) == RunFrom(Step(st, ev), events)
  {
    RunOne(st, ev);
    RunInTwo(st, [ev], events);
  }

  /** One more step in front of a run. */
  lemma {:induction false} Prepend(st: State, ev: Event, events: seq<Event>, id: Id) returns (all: seq<Event>)
    requires Own(events, id) && MovesOn(ev, id)
    ensures Own(all, id) && RunFrom(st, all) == RunFrom(Step(st, ev), events)
  {
    all := [ev] + events;
    StepFirst(st, ev, events);
  }

  // ---------------------------------------------------------------- a way to the end

  /** The rest of a drain. */
  lemma {:induction false} DrainCanEnd(st: State, id: Id) returns (events: seq<Event>)
    requires Sound(st) && IsDraining(st, id)
    ensures Own(events, id) && Is(RunFrom(st, events), id, Drained)
    ensures RunFrom(st, events).requests[id].tasks == st.requests[id].tasks == RunFrom(st, events).requests[id].ran
    decreases |st.requests[id].tasks| - st.requests[id].phase.next
  {
    var r := st.requests[id];
    assert RequestOk(st.log, id, r);
    if r.phase.next < |r.tasks| {
      StepIsSound(st, RunTask(id, false));
      events := DrainCanEnd(Step(st, RunTask(id, false)), id);
      events := Prepend(st, RunTask(id, false), events, id);
    } else {
      events := [EndDrain(id)];
      RunOne(st, EndDrain(id));
    }
  }

  /** The host is ready, and the reply of the request is still to come. */
  predicate AwaitsReply(st: State, id: Id) {
    st.hostReady && (Is(st, id, Parked) || Is(st, id, Executing) || Is(st, id, Replying))
  }

  /** Up to the reply. */
  lemma {:induction false} ReplyCanGoOut(st: State, id: Id) returns (events: seq<Event>)
    requires AwaitsReply(st, id)
    ensures Own(events, id) && Is(RunFrom(st, events), id, Replying)
    ensures RunFrom(st, events).requests[id].tasks == st.requests[id].tasks
  {
    if Is(st, id, Replying) {
      events := [];
    } else if Is(st, id, Executing) {
      events := [Finish(id)];
      RunOne(st, Finish(id));
    } else {
      events := [Release(id)] + [Finish(id)];
      StepFirst(st, Release(id), [Finish(id)]);
      RunOne(Step(st, Release(id)), Finish(id));
    }
  }

  /** From every sound state with the host ready, whatever else is under way, each unsettled request has a
      continuation of its own steps after which it was answered exactly once and all its tasks have run. */
  lemma {:induction false} CanBeAnswered(st: State, id: Id) returns (events: seq<Event>)
    requires Sound(st) && st.hostReady && id in st.requests && !Settled(st, id)
    ensures var end := RunFrom(st, events);
      && Own(events, id) && Is(end, id, Drained)
      && Times(end.log, Replied(id)) == 1 && Times(end.log, FailedToReply(id)) == 0
      && TasksLogged(end.log, id) == st.requests[id].tasks == end.requests[id].tasks
  {
    if IsDraining(st, id) {
      events := DrainCanEnd(st, id);
    } else {
      events := CanBeDrained(st, id);
    }
    EndIsLogged(st, id, events);
  }

  lemma {:induction false} CanBeDrained(st: State, id: Id) returns (events: seq<Event>)
    requires Sound(st) && AwaitsReply(st, id)
    ensures Own(events, id) && Is(RunFrom(st, events), id, Drained)
    ensures RunFrom(st, events).requests[id].tasks == st.requests[id].tasks == RunFrom(st, events).requests[id].ran
  {
    var before := ReplyCanGoOut(st, id);
    RunIsSound(st, before);
    var after := ArrivalCanDrain(RunFrom(st, before), id);
    events := before + after;
    RunInTwo(st, before, after);
  }

  lemma {:induction false} ArrivalCanDrain(st: State, id: Id) returns (events: seq<Event>)
    requires Sound(st) && Is(st, id, Replying)
    ensures Own(events, id) && Is(RunFrom(st, events), id, Drained)
    ensures RunFrom(st, events).requests[id].tasks == st.requests[id].tasks == RunFrom(st, events).requests[id].ran
  {
    StepIsSound(st, ReplyArrives(id));
    events := DrainCanEnd(Step(st, ReplyArrives(id)), id);
    events := Prepend(st, ReplyArrives(id), events, id);
  }

  /** In a sound state the log tells the phase. */
  lemma {:induction false} EndIsLogged(st: State, id: Id, events: seq<Event>)
    requires Sound(st) && id in RunFrom(st, events).requests
    ensures var end := RunFrom(st, events); RequestOk(end.log, id, end.requests[id])
  {
    RunIsSound(st, events);
  }

  /** And until its reply arrives, one after which the reply failed, exactly once, and nothing of it ran. */
  lemma {:induction false} CanFailToReply(st: State, id: Id) returns (events: seq<Event>)
    requires Sound(st) && AwaitsReply(st, id)
    ensures var end := RunFrom(st, events);
      && Own(events, id) && Is(end, id, ReplyFailed)
      && Times(end.log, FailedToReply(id)) == 1 && Times(end.log, Replied(id)) == 0 && TasksLogged(end.log, id) == []
  {
    var before := ReplyCanGoOut(st, id);
    events := before + [ReplyBreaks(id)];
    RunInTwo(st, before, [ReplyBreaks(id)]);
    RunOne(RunFrom(st, before), ReplyBreaks(id));
    EndIsLogged(st, id, events);
  }

  // ---------------------------------------------------------------- no way around it

  /** Steps a request has left when no further task is registered. */
  function StepsLeft(r: Request): nat {
    match r.phase
    case Parked => 4 + |r.tasks|
    case Executing => 3 + |r.tasks|
    case Replying => 2 + |r.tasks|
    case Draining(next) => if next < |r.tasks| then 1 + |r.tasks| - next else 1
    case _ => 0
  }

  /** A request that is not over always has a next step of its own, and each takes it nearer to the end. */
  lemma {:induction false} NeverStuck(st: State, id: Id) returns (ev: Event)
    requires st.hostReady && id in st.requests && !Settled(st, id)
    ensures MovesOn(ev, id) && !ev.AddTask? && Enabled(st, ev)
  {
    match st.requests[id].phase
    case Parked => ev := Release(id);
    case Executing => ev := Finish(id);
    case Replying => ev := ReplyArrives(id);
    case Draining(next) => ev := if next < |st.requests[id].tasks| then RunTask(id, false) else EndDrain(id);
  }

  lemma {:induction false} OwnStepIsProgress(st: State, id: Id, ev: Event)
    requires MovesOn(ev, id) && Enabled(st, ev)
    ensures ev.AddTask? || StepsLeft(Step(st, ev).requests[id]) < StepsLeft(st.requests[id])
    ensures ev.AddTask? ==> Step(st, ev).requests[id].phase == st.requests[id].phase
  {
  }

  /** What others do leaves a request and its next step alone. */
  lemma {:induction false} OthersDoNotBlock(st: State, id: Id, own: Event, other: Event)
    requires MovesOn(own, id) && Enabled(st, own) && !MovesOn(other, id)
    ensures Enabled(Step(st, other), own) && Step(st, other).requests[id] == st.requests[id]
  {
  }

  // ---------------------------------------------------------------- what a run has brought about

  /** The tasks registered for a request, in order. */
  function TasksAdded(events: seq<Event>, id: Id): seq<Task> {
    if |events| == 0 then []
    else
      var n := |events| - 1;
      TasksAdded(events[..n], id) + if Registered(events, id, n) then [events[n].task] else []
  }

  lemma {:induction false} TasksAreHistory(events: seq<Event>, id: Id)
    ensures TasksAdded(events, id) == if id in Run(events).requests then Run(events).requests[id].tasks else []
  {
    if |events| == 0 {
    } else {
      TasksAreHistory(events[..|events| - 1], id);
    }
  }

  lemma {:induction false} ReadyIsHistory(events: seq<Event>)
    ensures Run(events).hostReady <==> MarkReady in events
  {
    if |events| == 0 {
    } else {
      ReadyIsHistory(events[..|events| - 1]);
      assert events == events[..|events| - 1] + [events[|events| - 1]];
    }
  }

  /** The last event that registers the command or takes it back. */
  function LastWord(events: seq<Event>, command: string): Option<Event> {
    if |events| == 0 then None
    else
      var last := events[|events| - 1];
      if last == Register(command) || last == Unregister(command) then Some(last)
      else LastWord(events[..|events| - 1], command)
  }

  lemma {:induction false} RegistryIsHistory(events: seq<Event>, command: string)
    ensures command in Run(events).registered <==> LastWord(events, command) == Some(Register(command))
  {
    if |events| == 0 {
    } else {
      RegistryIsHistory(events[..|events| - 1], command);
    }
  }

  lemma OneFurther(events: seq<Event>, n: nat)
    requires n < |events|
    ensures Run(events[..n + 1]) == Step(Run(events[..n]), events[n])
  {
    assert events[..n + 1][..n] == events[..n];
  }

  function At(phase: Phase, tasks: seq<Task>, ran: seq<Task>, log: seq<Action>): State {
    State(false, {"c"}, map[1 := Request(true, phase, tasks, ran)], log)
  }

  lemma IsAt(st: State, phase: Phase, tasks: seq<Task>, ran: seq<Task>, log: seq<Action>)
    requires !st.hostReady && st.registered == {"c"} && st.requests.Keys == {1} && st.log == log
    requires st.requests[1] == Request(true, phase, tasks, ran)
    ensures st == At(phase, tasks, ran, log)
  {
    assert st.requests == map[1 := Request(true, phase, tasks, ran)];
  }

  lemma StartedAtOnce(e: seq<Event>)
    requires |e| == 2 && e == [Register("c"), Deliver(1, "c")]
    ensures Run(e) == At(Executing, [], [], [Started(1)])
  {
    OneFurther(e, 0);
    OneFurther(e, 1);
    assert e[..2] == e;
    IsAt(Run(e), Executing, [], [], [Started(1)]);
  }

  lemma AnsweredUntilReply(e: seq<Event>)
    requires |e| == 5 && e == [Register("c"), Deliver(1, "c"), AddTask(1, 5), AddTask(1, 6), Finish(1)]
    ensures Run(e) == At(Replying, [5, 6], [], [Started(1)])
  {
    StartedAtOnce(e[..2]);
    OneFurther(e, 2);
    IsAt(Run(e[..3]), Executing, [5], [], [Started(1)]);
    OneFurther(e, 3);
    IsAt(Run(e[..4]), Executing, [5, 6], [], [Started(1)]);
    OneFurther(e, 4);
    assert e[..5] == e;
    IsAt(Run(e), Replying, [5, 6], [], [Started(1)]);
  }

  lemma TasksRun()
    ensures var st := At(Draining(0), [5, 6], [], [Started(1), Replied(1)]);
      Step(Step(Step(st, RunTask(1, false)), RunTask(1, true)), EndDrain(1))
      == At(Drained, [5, 6], [5, 6], [Started(1), Replied(1), Ran(1, 5), Ran(1, 6)])
  {
    var st := Step(At(Draining(0), [5, 6], [], [Started(1), Replied(1)]), RunTask(1, false));
    IsAt(st, Draining(1), [5, 6], [5], [Started(1), Replied(1), Ran(1, 5)]);
    st := Step(st, RunTask(1, true));
    IsAt(st, Draining(2), [5, 6], [5, 6], [Started(1), Replied(1), Ran(1, 5), Ran(1, 6)]);
    IsAt(Step(st, EndDrain(1)), Drained, [5, 6], [5, 6], [Started(1), Replied(1), Ran(1, 5), Ran(1, 6)]);
  }

  /** A request with two tasks, the second of which fails, from its delivery to its end. */
  lemma {:induction false} AnsweredInFull(e: seq<Event>)
    requires e == [Register("c"), Deliver(1, "c"), AddTask(1, 5), AddTask(1, 6), Finish(1), ReplyArrives(1),
                   RunTask(1, false), RunTask(1, true), EndDrain(1)]
    ensures Run(e) == At(Drained, [5, 6], [5, 6], [Started(1), Replied(1), Ran(1, 5), Ran(1, 6)])
  {
    AnsweredUntilReply(e[..5]);
    OneFurther(e, 5);
    IsAt(Run(e[..6]), Draining(0), [5, 6], [], [Started(1), Replied(1)]);
    OneFurther(e, 6);
    OneFurther(e, 7);
    OneFurther(e, 8);
    TasksRun();
    assert e[..9] == e;
  }
}
