/** The executor object of src/commands/executor.ts with `completeCommandReply` of
    src/commands/commandReplyTransaction.ts: one method per stretch of code between two awaits,
    each refining a step of `Delivery`. */
module Executor {
  import opened Delivery

  class CommandExecutor {
    var hostReady: bool
    var served: set<Id>
    var registered: set<string>
    var pending: map<Id, Request>      // the locals of every listener call, suspended or finished
    ghost var log: seq<Action>

    ghost predicate Valid()
      reads this
    {
      served == pending.Keys
    }

    ghost function View(): State
      reads this
    {
      State(hostReady, registered, pending, log)
    }

    constructor ()
      ensures Valid() && View() == BOOTING
    {
      hostReady, served, registered, pending, log := false, {}, {}, map[], [];
    }

    /** The listener, up to its first await. */
    method OnRequest(id: Id, command: string)
      requires Valid()
      modifies this
      ensures Valid() && View() == Step(old(View()), Deliver(id, command))
    {
      if id in served { return; }
      served := served + {id};
      var known := command in registered;
      if !hostReady && !known {
        pending := pending[id := Request(known, Parked, [], [])];
        return;
      }
      pending := pending[id := Request(known, Executing, [], [])];
      log := log + [Started(id)];
    }

    method MarkCommandHostReady()
      requires Valid()
      modifies this
      ensures Valid() && View() == Step(old(View()), MarkReady)
    {
      hostReady := true;
      log := log + [BecameReady];
    }

    /** The listener after the host-ready gate. */
    method ResumeParked(id: Id)
      requires Valid() && Enabled(View(), Release(id))
      modifies this
      ensures Valid() && View() == Step(old(View()), Release(id))
    {
      pending := pending[id := pending[id].(phase := Executing)];
      log := log + [Started(id)];
    }

    /** `ctx.afterReply(task)`. */
    method AfterReply(id: Id, task: Task)
      requires Valid() && Enabled(View(), AddTask(id, task))
      modifies this
      ensures Valid() && View() == Step(old(View()), AddTask(id, task))
    {
      pending := pending[id := pending[id].(tasks := pending[id].tasks + [task])];
    }

    /** The command settled: `completeCommandReply` sends its result. */
    method SendReply(id: Id)
      requires Valid() && Enabled(View(), Finish(id))
      modifies this
      ensures Valid() && View() == Step(old(View()), Finish(id))
    {
      pending := pending[id := pending[id].(phase := Replying)];
    }

    /** `completeCommandReply` from the moment the reply settles. `late[k]` is what is registered while task
        number `k` runs: the loop reads the live list, so those tasks run as well. */
    method CompleteReply(id: Id, arrives: bool, late: seq<seq<Task>>, fails: Task -> bool)
      returns (delivered: bool, ran: seq<Task>, failed: seq<Task>)
      requires Valid() && Is(View(), id, Replying)
      modifies this`pending, this`log
      ensures Valid() && delivered == arrives && failed == Failing(ran, fails)
      ensures if arrives then IsWholeDrain(old(pending)[id].tasks, late, ran) else ran == []
      ensures !arrives ==> View() == Step(old(View()), ReplyBreaks(id))
      ensures arrives && old(pending)[id].ran == [] ==>
        View() == RunFrom(old(View()), DrainEvents(id, late, |ran|) + [EndDrain(id)])
      ensures arrives ==>
        pending == old(pending)[id := old(pending)[id].(phase := Drained, tasks := ran, ran := ran)]
      ensures log == old(log) + if arrives then [Replied(id)] + RunLog(id, ran) else [FailedToReply(id)]
    {
      ghost var st := View();
      if !arrives {
        pending := pending[id := pending[id].(phase := ReplyFailed)];
        log := log + [FailedToReply(id)];
        return false, [], [];
      }
      log := log + [Replied(id)];
      ran, failed := RunTasks(pending[id].tasks, late, fails);
      log := log + RunLog(id, ran);
      pending := pending[id := pending[id].(phase := Drained, tasks := ran, ran := ran)];
      delivered := true;
      assert View() == After(st, id, Drained, ran, ran);
      if old(pending)[id].ran == [] { WholeDrain(st, id, late, ran); }
    }
  }

  /** The tasks that fail, in order. */
  function Failing(tasks: seq<Task>, fails: Task -> bool): seq<Task> {
    if |tasks| == 0 then []
    else
      var last := tasks[|tasks| - 1];
      Failing(tasks[..|tasks| - 1], fails) + if fails(last) then [last] else []
  }

  lemma {:induction false} FailingAreThose(tasks: seq<Task>, fails: Task -> bool, task: Task)
    ensures task in Failing(tasks, fails) <==> task in tasks && fails(task)
  {
    if |tasks| == 0 {
    } else {
      FailingAreThose(tasks[..|tasks| - 1], fails, task);
      assert tasks == tasks[..|tasks| - 1] + [tasks[|tasks| - 1]];
    }
  }

  function RunLog(id: Id, tasks: seq<Task>): seq<Action> {
    seq(|tasks|, i requires 0 <= i < |tasks| => Ran(id, tasks[i]))
  }

  function LateAt(late: seq<seq<Task>>, k: nat): seq<Task> {
    if k < |late| then late[k] else []
  }

  /** What is registered once `k` tasks have run. */
  function Queue(tasks: seq<Task>, late: seq<seq<Task>>, k: nat): seq<Task> {
    if k == 0 then tasks else Queue(tasks, late, k - 1) + LateAt(late, k - 1)
  }

  /** Each task had been registered when its turn came, and none that ever was is missing. */
  ghost predicate IsWholeDrain(tasks: seq<Task>, late: seq<seq<Task>>, ran: seq<Task>) {
    ran == Queue(tasks, late, |ran|) && forall k: nat :: k < |ran| ==> IsRegistered(tasks, late, k)
  }

  predicate IsRegistered(tasks: seq<Task>, late: seq<seq<Task>>, k: nat) {
    k < |Queue(tasks, late, k)|
  }

  function Remaining(late: seq<seq<Task>>, k: nat): nat
    decreases |late| - k
  {
    if k >= |late| then 0 else |late[k]| + Remaining(late, k + 1)
  }

  /** The task loop: a failure is reported, and the next task still runs. */
  method RunTasks(tasks: seq<Task>, late: seq<seq<Task>>, fails: Task -> bool)
    returns (ran: seq<Task>, failed: seq<Task>)
    ensures IsWholeDrain(tasks, late, ran)
    ensures failed == Failing(ran, fails)
  {
    var queue := tasks;
    ran, failed := [], [];
    var i := 0;
    while i < |queue|
      invariant 0 <= i <= |queue|
      invariant queue == Queue(tasks, late, i) && ran == queue[..i]
      invariant forall k: nat :: k < i ==> IsRegistered(tasks, late, k)
      invariant failed == Failing(ran, fails)
      decreases Remaining(late, i) + |queue| - i
    {
      assert IsRegistered(tasks, late, i);
      var task := queue[i];
      assert (ran + [task])[..|ran|] == ran;
      ran := ran + [task];
      if fails(task) { failed := failed + [task]; }
      queue := queue + LateAt(late, i);
      i := i + 1;
    }
  }

  // ---------------------------------------------------------------- the drain as a run of the machine

  function Registrations(id: Id, tasks: seq<Task>): seq<Event> {
    seq(|tasks|, i requires 0 <= i < |tasks| => AddTask(id, tasks[i]))
  }

  /** The events of an undisturbed drain of `n` tasks. */
  function DrainEvents(id: Id, late: seq<seq<Task>>, n: nat): seq<Event> {
    if n == 0 then [ReplyArrives(id)]
    else DrainEvents(id, late, n - 1) + [RunTask(id, false)] + Registrations(id, LateAt(late, n - 1))
  }

  /** The state after the reply, with these tasks registered and run. */
  function After(st: State, id: Id, phase: Phase, tasks: seq<Task>, ran: seq<Task>): State
    requires id in st.requests
  {
    st.(requests := st.requests[id := st.requests[id].(phase := phase, tasks := tasks, ran := ran)],
        log := st.log + ([Replied(id)] + RunLog(id, ran)))
  }

  lemma {:induction false} RunInTwo(st: State, a: seq<Event>, b: seq<Event>)
    ensures RunFrom(st, a + b) == RunFrom(RunFrom(st, a), b)
  {
    if |b| == 0 {
      assert a + b == a;
    } else {
      RunInTwo(st, a, b[..|b| - 1]);
      assert (a + b)[..|a + b| - 1] == a + b[..|b| - 1];
    }
  }

  lemma {:induction false} RunOne(st: State, ev: Event)
    ensures RunFrom(st, [ev]) == Step(st, ev)
  {
    assert [ev][..0] == [];
    assert RunFrom(st, []) == st;
  }

  lemma {:induction false} ReplyStarts(st: State, id: Id)
    requires Is(st, id, Replying) && st.requests[id].ran == []
    ensures Step(st, ReplyArrives(id)) == After(st, id, Draining(0), st.requests[id].tasks, [])
  {
    var a, b := Step(st, ReplyArrives(id)), After(st, id, Draining(0), st.requests[id].tasks, []);
    assert a.log == b.log && a.requests == b.requests;
  }

  lemma {:induction false} TaskRuns(st: State, id: Id, n: nat, tasks: seq<Task>)
    requires id in st.requests && n < |tasks|
    ensures Step(After(st, id, Draining(n), tasks, tasks[..n]), RunTask(id, false)) ==
            After(st, id, Draining(n + 1), tasks, tasks[..n + 1])
  {
    assert tasks[..n + 1] == tasks[..n] + [tasks[n]];
    assert RunLog(id, tasks[..n + 1]) == RunLog(id, tasks[..n]) + [Ran(id, tasks[n])];
    var a := Step(After(st, id, Draining(n), tasks, tasks[..n]), RunTask(id, false));
    var b := After(st, id, Draining(n + 1), tasks, tasks[..n + 1]);
    assert a.log == b.log;
    assert a.requests == b.requests;
  }

  lemma {:induction false} TaskRegisters(st: State, id: Id, n: nat, tasks: seq<Task>, ran: seq<Task>, task: Task)
    requires id in st.requests
    ensures Step(After(st, id, Draining(n), tasks, ran), AddTask(id, task)) ==
            After(st, id, Draining(n), tasks + [task], ran)
  {
    var a := Step(After(st, id, Draining(n), tasks, ran), AddTask(id, task));
    assert a.requests == After(st, id, Draining(n), tasks + [task], ran).requests;
  }

  lemma {:induction false} TasksRegister(st: State, id: Id, n: nat, tasks: seq<Task>, ran: seq<Task>, more: seq<Task>)
    requires id in st.requests
    ensures RunFrom(After(st, id, Draining(n), tasks, ran), Registrations(id, more)) ==
            After(st, id, Draining(n), tasks + more, ran)
  {
    var events := Registrations(id, more);
    if |more| == 0 {
      assert tasks + more == tasks;
    } else {
      var k := |more| - 1;
      TasksRegister(st, id, n, tasks, ran, more[..k]);
      TaskRegisters(st, id, n, tasks + more[..k], ran, more[k]);
      assert events[..k] == Registrations(id, more[..k]);
      assert tasks + more == tasks + more[..k] + [more[k]];
    }
  }

  lemma {:induction false} DrainEnds(st: State, id: Id, tasks: seq<Task>)
    requires id in st.requests
    ensures Step(After(st, id, Draining(|tasks|), tasks, tasks), EndDrain(id)) == After(st, id, Drained, tasks, tasks)
  {
    var a := Step(After(st, id, Draining(|tasks|), tasks, tasks), EndDrain(id));
    assert a.requests == After(st, id, Drained, tasks, tasks).requests;
  }

  lemma {:induction false} OneMoreTask(st: State, id: Id, n: nat, tasks: seq<Task>, more: seq<Task>)
    requires id in st.requests && n < |tasks|
    ensures RunFrom(After(st, id, Draining(n), tasks, tasks[..n]), [RunTask(id, false)] + Registrations(id, more)) ==
            After(st, id, Draining(n + 1), tasks + more, (tasks + more)[..n + 1])
  {
    var before := After(st, id, Draining(n), tasks, tasks[..n]);
    RunInTwo(before, [RunTask(id, false)], Registrations(id, more));
    RunOne(before, RunTask(id, false));
    TaskRuns(st, id, n, tasks);
    TasksRegister(st, id, n + 1, tasks, tasks[..n + 1], more);
    assert (tasks + more)[..n + 1] == tasks[..n + 1];
  }

  lemma {:induction false} DrainGoesOn(st: State, id: Id, late: seq<seq<Task>>, n: nat, tasks: seq<Task>)
    requires id in st.requests && n < |tasks|
    requires RunFrom(st, DrainEvents(id, late, n)) == After(st, id, Draining(n), tasks, tasks[..n])
    ensures RunFrom(st, DrainEvents(id, late, n + 1)) ==
            After(st, id, Draining(n + 1), tasks + LateAt(late, n), (tasks + LateAt(late, n))[..n + 1])
  {
    var more := [RunTask(id, false)] + Registrations(id, LateAt(late, n));
    OneMoreTask(st, id, n, tasks, LateAt(late, n));
    RunInTwo(st, DrainEvents(id, late, n), more);
    assert DrainEvents(id, late, n + 1) == DrainEvents(id, late, n) + more;
  }

  /** The loop over tasks is the machine's own run of these steps; `queue` is what is registered by then. */
  lemma {:induction false} DrainIsARun(
    st: State, id: Id, tasks: seq<Task>, late: seq<seq<Task>>, n: nat, queue: seq<Task>)
    requires Is(st, id, Replying) && st.requests[id].ran == [] && st.requests[id].tasks == tasks
    requires queue == Queue(tasks, late, n) && forall k: nat :: k < n ==> IsRegistered(tasks, late, k)
    ensures n <= |queue| && RunFrom(st, DrainEvents(id, late, n)) == After(st, id, Draining(n), queue, queue[..n])
  {
    if n == 0 {
      ReplyStarts(st, id);
      RunOne(st, ReplyArrives(id));
      assert queue[..0] == [];
    } else {
      var before := Queue(tasks, late, n - 1);
      DrainIsARun(st, id, tasks, late, n - 1, before);
      assert IsRegistered(tasks, late, n - 1);
      DrainGoesOn(st, id, late, n - 1, before);
    }
  }

  lemma {:induction false} WholeDrain(st: State, id: Id, late: seq<seq<Task>>, ran: seq<Task>)
    requires Is(st, id, Replying) && st.requests[id].ran == [] && IsWholeDrain(st.requests[id].tasks, late, ran)
    ensures RunFrom(st, DrainEvents(id, late, |ran|) + [EndDrain(id)]) == After(st, id, Drained, ran, ran)
  {
    DrainIsARun(st, id, st.requests[id].tasks, late, |ran|, ran);
    assert ran[..|ran|] == ran;
    RunInTwo(st, DrainEvents(id, late, |ran|), [EndDrain(id)]);
    RunOne(After(st, id, Draining(|ran|), ran, ran), EndDrain(id));
    DrainEnds(st, id, ran);
  }
}
