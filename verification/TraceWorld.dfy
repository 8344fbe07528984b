/** The trace recorder and the journal that feeds it (src/commands/catalogDom.ts,
    src/lib/layoutTransitionJournal.ts): every session in the table hears every commit, and every receipt
    handed out tells whole, even blocks. */
module TraceWorld {
  import opened JsValues
  import opened TraceMachine
  import opened TraceTable
  import LayoutJournal

  datatype World = World(journal: LayoutJournal.Journal, table: Table)

  /** What the two readings of a commit show each session. */
  type Readings = string -> (int, int)

  /** The journal moves on and tells its listeners, or something happens at the table. */
  datatype WorldEvent = Layout(move: LayoutJournal.JournalEvent, readings: Readings) | AtTable(ev: TableEvent)

  /** `publishLayoutTransitionJournal`: every session hears the commit. */
  function Broadcast(t: Table, c: Closure, readings: Readings): Table {
    t.(sessions := map id | id in t.sessions :: React(t.sessions[id], Committed(c, readings(id).0, readings(id).1)))
  }

  /** Commits come from the journal alone. */
  function Next(w: World, ev: WorldEvent): World {
    match ev
    case Layout(e, readings) =>
      (match LayoutJournal.Publication(w.journal, e)
       case None => w.(journal := LayoutJournal.Step(w.journal, e))
       case Some(c) => World(LayoutJournal.Step(w.journal, e), Broadcast(w.table, c, readings)))
    case AtTable(e) => if e.Happened? && e.ev.Committed? then w else w.(table := Apply(w.table, e))
  }

  function After(j: LayoutJournal.Journal, events: seq<WorldEvent>): World {
    if |events| == 0 then World(j, EMPTY) else Next(After(j, events[..|events| - 1]), events[|events| - 1])
  }

  // ---------------------------------------------------------------- one session, fed by the journal

  predicate Holds(s: Session, c: Closure) {
    c in s.listeners || c in s.observers || s.current == Some(c)
  }

  /** The ledger is even, and whatever is attached comes from transactions that are over, one time each. */
  ghost predicate Fed(j: LayoutJournal.Journal, s: Session) {
    && InStep(s) && Uniform(s.samples)
    && (forall c :: Holds(s, c) ==> LayoutJournal.IsClosedId(j, c.transaction))
    && (forall c, d :: Holds(s, c) && Holds(s, d) && c.transaction == d.transaction ==> c == d)
  }

  lemma {:induction false} FedHasNoTwin(j: LayoutJournal.Journal, s: Session)
    requires Fed(j, s)
    ensures !HasStaleTwin(s)
  {
    assert s.current.Some? ==> Holds(s, s.current.value);
    assert forall k :: 0 <= k < |s.listeners| ==> Holds(s, s.listeners[k]);
    assert forall k :: 0 <= k < |s.observers| ==> Holds(s, s.observers[k]);
  }

  lemma {:induction false} HeldBefore(s: Session, ev: Event, c: Closure)
    requires Holds(React(s, ev), c)
    ensures Holds(s, c) || (ev.Committed? && ev.c == c)
  {
    AttachedBy(s, ev);
  }

  lemma {:induction false} FedStep(j: LayoutJournal.Journal, s: Session, ev: Event)
    requires Fed(j, s) && !ev.Committed?
    ensures Fed(j, React(s, ev))
  {
    FedHasNoTwin(j, s);
    NoTwinIsUniform(s, ev);
    forall c | Holds(React(s, ev), c) ensures Holds(s, c) { HeldBefore(s, ev, c); }
  }

  lemma {:induction false} ClosedGrows(j: LayoutJournal.Journal, e: LayoutJournal.JournalEvent, transaction: string)
    requires LayoutJournal.IsClosedId(j, transaction)
    ensures LayoutJournal.IsClosedId(LayoutJournal.Step(j, e), transaction)
  {
    LayoutJournal.ClosedStaysClosed(j, LayoutJournal.Layout(e, 0, 0), transaction);
  }

  lemma {:induction false} FedMeanwhile(j: LayoutJournal.Journal, s: Session, e: LayoutJournal.JournalEvent)
    requires Fed(j, s)
    ensures Fed(LayoutJournal.Step(j, e), s)
  {
    forall c | Holds(s, c) ensures LayoutJournal.IsClosedId(LayoutJournal.Step(j, e), c.transaction) {
      ClosedGrows(j, e, c.transaction);
    }
  }

  lemma {:induction false} FedCommit(j: LayoutJournal.Journal, s: Session, n: nat, now: int, reading: int, anchorReading: int)
    requires Fed(j, s) && LayoutJournal.IsOpen(j, n)
    ensures Fed(LayoutJournal.Step(j, LayoutJournal.Commit(n, now)),
                React(s, Committed(Closure(LayoutJournal.IdOf(n), now), reading, anchorReading)))
  {
    var c := Closure(LayoutJournal.IdOf(n), now);
    var ev, k := Committed(c, reading, anchorReading), LayoutJournal.Step(j, LayoutJournal.Commit(n, now));
    FedHasNoTwin(j, s);
    NoTwinIsUniform(s, ev);
    LayoutJournal.IdsDiffer(j, n);
    assert n in k.closed;
    forall d | Holds(React(s, ev), d) ensures d == c || (Holds(s, d) && d.transaction != c.transaction)
                                      ensures LayoutJournal.IsClosedId(k, d.transaction)
    {
      HeldBefore(s, ev, d);
      if d != c { ClosedGrows(j, LayoutJournal.Commit(n, now), d.transaction); }
    }
  }

  lemma {:induction false} FedStart(j: LayoutJournal.Journal, intervalEnabled: bool, expiresAt: int, reading: int)
    ensures Fed(j, Started(intervalEnabled, expiresAt, reading))
  {
    StartedIsOk(intervalEnabled, expiresAt, reading);
  }

  lemma {:induction false} FedEviction(j: LayoutJournal.Journal, s: Session, listed: bool)
    requires Fed(j, s) && EntryOk(s, listed) && s.evictionArmed
    ensures Fed(j, s.(evictionArmed := false))
  {
    EvictEntry(s, listed);
    assert forall c :: Holds(s.(evictionArmed := false), c) ==> Holds(s, c);
  }

  // ---------------------------------------------------------------- every run

  ghost predicate WorldOk(w: World) {
    TableOk(w.table) && forall id :: id in w.table.sessions ==> Fed(w.journal, w.table.sessions[id])
  }

  lemma {:induction false} BroadcastIsOk(t: Table, c: Closure, readings: Readings)
    requires TableOk(t)
    ensures TableOk(Broadcast(t, c, readings))
  {
    var u := Broadcast(t, c, readings);
    forall id | id in u.sessions ensures EntryOk(u.sessions[id], id in u.listed) {
      ReactEntry(t.sessions[id], id in t.listed, Committed(c, readings(id).0, readings(id).1));
    }
  }

  lemma {:induction false} LayoutKeepsWorld(w: World, ev: WorldEvent)
    requires WorldOk(w) && ev.Layout?
    ensures WorldOk(Next(w, ev))
  {
    var next, publication := Next(w, ev), LayoutJournal.Publication(w.journal, ev.move);
    if publication.Some? { BroadcastIsOk(w.table, publication.value, ev.readings); }
    forall id | id in next.table.sessions ensures Fed(next.journal, next.table.sessions[id]) {
      var s := w.table.sessions[id];
      if publication.Some? {
        FedCommit(w.journal, s, ev.move.n, ev.move.now, ev.readings(id).0, ev.readings(id).1);
      } else {
        FedMeanwhile(w.journal, s, ev.move);
      }
    }
  }

  lemma {:induction false} FedAfter(j: LayoutJournal.Journal, t: Table, e: TableEvent, id: string)
    requires id in Apply(t, e).sessions && !(e.Happened? && e.ev.Committed?)
    requires id in t.sessions ==> Fed(j, t.sessions[id]) && EntryOk(t.sessions[id], id in t.listed)
    ensures Fed(j, Apply(t, e).sessions[id])
  {
    EntryAfter(t, e, id);
    if id !in t.sessions {
      FedStart(j, e.intervalEnabled, e.startedAt + Lifetime(e.maxMs), e.reading);
    } else if e.Happened? {
      FedStep(j, t.sessions[id], e.ev);
    } else if e.Close? {
      FedStep(j, t.sessions[id], Closed(e.now));
    } else if e.Evict? && t.sessions[id].evictionArmed {
      FedEviction(j, t.sessions[id], id in t.listed);
    }
  }

  lemma {:induction false} TableKeepsWorld(w: World, ev: WorldEvent)
    requires WorldOk(w) && ev.AtTable?
    ensures WorldOk(Next(w, ev))
  {
    if !(ev.ev.Happened? && ev.ev.ev.Committed?) {
      ApplyIsOk(w.table, ev.ev);
      forall id | id in Apply(w.table, ev.ev).sessions ensures Fed(w.journal, Apply(w.table, ev.ev).sessions[id]) {
        FedAfter(w.journal, w.table, ev.ev, id);
      }
    }
  }

  lemma {:induction false} EveryWorldIsOk(j: LayoutJournal.Journal, events: seq<WorldEvent>)
    ensures WorldOk(After(j, events))
  {
    if |events| == 0 {
    } else {
      var w, ev := After(j, events[..|events| - 1]), events[|events| - 1];
      EveryWorldIsOk(j, events[..|events| - 1]);
      if ev.Layout? { LayoutKeepsWorld(w, ev); } else { TableKeepsWorld(w, ev); }
    }
  }

  /** Over every run of the journal and the table together: whatever a close hands out is one `arm` sample
      followed by whole blocks, each of one transaction and one commit time, numbered and counted exactly. */
  lemma {:induction false} EveryReceiptIsWellTold(
    j: LayoutJournal.Journal, events: seq<WorldEvent>, id: string, now: int, receipt: Receipt)
    requires Answers(After(j, events).table, id, now, Some(receipt))
    ensures exists blocks :: IsLedger(receipt.samples, blocks)
    ensures forall i :: 0 <= i < |receipt.samples| ==> receipt.samples[i].sequence == i
    ensures forall p :: CountOf(receipt.counts, p) == Count(receipt.samples, p)
  {
    var w := After(j, events);
    EveryWorldIsOk(j, events);
    assert Fed(w.journal, w.table.sessions[id]);
    OkIsWellTold(w.table.sessions[id]);
  }

  // ---------------------------------------------------------------- the loop over listeners

  /** The table when these sessions have heard the commit. */
  function Heard(t: Table, c: Closure, readings: Readings, done: set<string>): Table {
    t.(sessions := map id | id in t.sessions ::
         if id in done then React(t.sessions[id], Committed(c, readings(id).0, readings(id).1)) else t.sessions[id])
  }

  lemma {:induction false} OneMoreHears(t: Table, c: Closure, readings: Readings, done: set<string>, id: string)
    requires id in t.sessions && id !in done
    ensures var before, after := Heard(t, c, readings, done), Heard(t, c, readings, done + {id});
      after == Table(before.sessions[id := React(before.sessions[id], Committed(c, readings(id).0, readings(id).1))],
                     before.listed)
  {
    var before, after := Heard(t, c, readings, done), Heard(t, c, readings, done + {id});
    assert after.sessions == before.sessions[id := React(before.sessions[id], Committed(c, readings(id).0, readings(id).1))];
  }

  /** Sessions outside the table are over and no longer listen. */
  lemma {:induction false} AllListedHear(t: Table, c: Closure, readings: Readings)
    requires TableOk(t)
    ensures Heard(t, c, readings, t.listed) == Broadcast(t, c, readings)
  {
    forall id | id in t.sessions
      ensures Heard(t, c, readings, t.listed).sessions[id] == Broadcast(t, c, readings).sessions[id]
    {
      assert EntryOk(t.sessions[id], id in t.listed);
    }
    assert Heard(t, c, readings, t.listed).sessions == Broadcast(t, c, readings).sessions;
  }

  method HearNext(recorder: Recorder, c: Closure, readings: Readings, id: string, ghost t: Table, ghost done: set<string>)
    requires recorder.Valid() && id in recorder.sessions && id in t.sessions && id !in done
    requires recorder.View() == Heard(t, c, readings, done)
    modifies recorder.sessions[id]
    ensures recorder.Valid() && recorder.View() == Heard(t, c, readings, done + {id})
  {
    assert recorder.View().sessions[id] == recorder.all[id].View() == recorder.sessions[id].View();
    OneMoreHears(t, c, readings, done, id);
    recorder.Hear(id, c, readings(id).0, readings(id).1);
  }

  /** `publishLayoutTransitionJournal`, for the sessions of the table. */
  method Publish(recorder: Recorder, c: Closure, readings: Readings)
    requires recorder.Valid() && TableOk(recorder.View())
    modifies recorder.all.Values
    ensures recorder.Valid() && recorder.View() == Broadcast(old(recorder.View()), c, readings)
  {
    ghost var t := recorder.View();
    assert t.sessions.Keys == recorder.all.Keys && t.listed == recorder.sessions.Keys;
    AllListedHear(t, c, readings);
    var rest := recorder.sessions.Keys;
    NoneHeard(t, c, readings, rest);
    while rest != {}
      invariant recorder.Valid() && rest <= recorder.sessions.Keys
      invariant recorder.View() == Heard(t, c, readings, t.listed - rest)
      decreases rest
    {
      var id :| id in rest;
      HearNext(recorder, c, readings, id, t, t.listed - rest);
      Took(t.listed, rest, id);
      rest := rest - {id};
    }
    assert t.listed - rest == t.listed;
  }

  lemma Took(all: set<string>, rest: set<string>, id: string)
    requires id in all
    ensures (all - rest) + {id} == all - (rest - {id})
  {
  }

  lemma {:induction false} NoneHeard(t: Table, c: Closure, readings: Readings, rest: set<string>)
    requires rest == t.listed
    ensures Heard(t, c, readings, t.listed - rest) == t
  {
    assert t.listed - rest == {};
    assert Heard(t, c, readings, {}).sessions == t.sessions;
  }
}
