/** The table of multi-DOM trace sessions (src/commands/catalogDom.ts): starting, closing, expiry and
    eviction, over any number of sessions whose callbacks outlive their place in the table. */
module TraceTable {
  import opened JsValues
  import opened TraceMachine

  /** Every session ever started, and the ids now in the table. Ids are fresh random UUIDs. */
  datatype Table = Table(sessions: map<string, Session>, listed: set<string>)

  const EMPTY: Table := Table(map[], {})

  datatype TableEvent =
    | Start(id: string, startedAt: int, maxMs: int, intervalEnabled: bool, reading: int)
    | Happened(id: string, ev: Event)
    | Close(id: string, now: int)
    | Evict(id: string)

  /** The requested lifetime, clamped. */
  function Lifetime(maxMs: int): int {
    var atLeast := if maxMs < 50 then 50 else maxMs;
    if atLeast > MAX_MS then MAX_MS else atLeast
  }

  /** The nearest lifetime between 50 and 15000 milliseconds. */
  lemma LifetimeIsNearest(maxMs: int, other: int)
    requires 50 <= other <= 15000
    ensures 50 <= Lifetime(maxMs) <= 15000
    ensures maxMs <= Lifetime(maxMs) <= other || other <= Lifetime(maxMs) <= maxMs || Lifetime(maxMs) == maxMs
  {
  }

  function Apply(t: Table, ev: TableEvent): Table {
    match ev
    case Start(id, startedAt, maxMs, intervalEnabled, reading) =>
      if id in t.sessions || |t.listed| >= MAX_SESSIONS then t
      else Table(t.sessions[id := Started(intervalEnabled, startedAt + Lifetime(maxMs), reading)], t.listed + {id})
    case Happened(id, e) =>                           // a close goes by the table
      if id in t.sessions && !e.Closed? then t.(sessions := t.sessions[id := React(t.sessions[id], e)]) else t
    case Close(id, now) =>
      if id in t.listed && id in t.sessions
      then Table(t.sessions[id := React(t.sessions[id], Closed(now))], t.listed - {id})
      else t
    case Evict(id) =>
      if id in t.sessions && t.sessions[id].evictionArmed
      then Table(t.sessions[id := t.sessions[id].(evictionArmed := false)], t.listed - {id})
      else t
  }

  lemma {:induction false} StartingApplied(t: Table, id: string, startedAt: int, maxMs: int, intervalEnabled: bool, reading: int)
    returns (s: Session)
    requires id !in t.sessions
    ensures s == Started(intervalEnabled, startedAt + Lifetime(maxMs), reading)
    ensures Apply(t, Start(id, startedAt, maxMs, intervalEnabled, reading))
         == if |t.listed| >= MAX_SESSIONS then t else Table(t.sessions[id := s], t.listed + {id})
  {
    s := Started(intervalEnabled, startedAt + Lifetime(maxMs), reading);
  }

  lemma {:induction false} ClosingApplied(t: Table, id: string, now: int) returns (s: Session)
    requires id in t.listed && id in t.sessions
    ensures s == React(t.sessions[id], Closed(now))
    ensures Apply(t, Close(id, now)) == Table(t.sessions[id := s], t.listed - {id})
  {
    s := React(t.sessions[id], Closed(now));
  }

  lemma {:induction false} EvictionApplied(t: Table, id: string) returns (s: Session)
    requires id in t.sessions && t.sessions[id].evictionArmed
    ensures s == t.sessions[id].(evictionArmed := false)
    ensures Apply(t, Evict(id)) == Table(t.sessions[id := s], t.listed - {id})
  {
    s := t.sessions[id].(evictionArmed := false);
  }

  /** What one event may do to one session. */
  lemma {:induction false} EntryAfter(t: Table, ev: TableEvent, id: string)
    requires id in Apply(t, ev).sessions
    ensures var after := Apply(t, ev).sessions[id];
      if id !in t.sessions then
        ev.Start? && after == Started(ev.intervalEnabled, ev.startedAt + Lifetime(ev.maxMs), ev.reading)
      else
        || after == t.sessions[id]
        || (ev.Happened? && after == React(t.sessions[id], ev.ev))
        || (ev.Close? && after == React(t.sessions[id], Closed(ev.now)))
        || (ev.Evict? && t.sessions[id].evictionArmed && after == t.sessions[id].(evictionArmed := false))
  {
  }

  function ApplyAll(t: Table, events: seq<TableEvent>): Table {
    if |events| == 0 then t else Apply(ApplyAll(t, events[..|events| - 1]), events[|events| - 1])
  }

  /** A session in the table has the timer that will move it on; one outside it is over. */
  predicate Timed(s: Session, listed: bool) {
    if listed then (if s.endedAt.None? then s.expiryArmed else s.timedOut && s.evictionArmed)
    else s.endedAt.Some? && !s.expiryArmed && !s.evictionArmed
  }

  ghost predicate EntryOk(s: Session, listed: bool) {
    SessionOk(s) && Timed(s, listed)
  }

  ghost predicate TableOk(t: Table) {
    && t.listed <= t.sessions.Keys
    && |t.listed| <= MAX_SESSIONS
    && forall id :: id in t.sessions ==> EntryOk(t.sessions[id], id in t.listed)
  }

  lemma {:induction false} ReactEntry(s: Session, listed: bool, ev: Event)
    requires EntryOk(s, listed) && !ev.Closed?
    ensures EntryOk(React(s, ev), listed)
  {
    ReactIsOk(s, ev);
  }

  lemma {:induction false} CloseEntry(s: Session, now: int)
    requires EntryOk(s, true)
    ensures EntryOk(React(s, Closed(now)), false)
  {
    ReactIsOk(s, Closed(now));
  }

  lemma {:induction false} EvictEntry(s: Session, listed: bool)
    requires EntryOk(s, listed) && s.evictionArmed
    ensures EntryOk(s.(evictionArmed := false), false)
  {
  }

  lemma {:induction false} UpdateIsOk(t: Table, id: string, s: Session, listed: set<string>)
    requires TableOk(t) && EntryOk(s, id in listed)
    requires listed == t.listed - {id} || (id in t.listed && listed == t.listed)
    ensures TableOk(Table(t.sessions[id := s], listed))
  {
    var u := Table(t.sessions[id := s], listed);
    forall other | other in u.sessions ensures EntryOk(u.sessions[other], other in listed) {
      if other != id { assert EntryOk(t.sessions[other], other in t.listed); }
    }
  }

  lemma {:induction false} StartIsOk(t: Table, id: string, s: Session)
    requires TableOk(t) && EntryOk(s, true) && id !in t.sessions && |t.listed| < MAX_SESSIONS
    ensures TableOk(Table(t.sessions[id := s], t.listed + {id}))
  {
    var u := Table(t.sessions[id := s], t.listed + {id});
    forall other | other in u.sessions ensures EntryOk(u.sessions[other], other in u.listed) {
      if other != id { assert EntryOk(t.sessions[other], other in t.listed); }
    }
  }

  lemma {:induction false} ApplyIsOk(t: Table, ev: TableEvent)
    requires TableOk(t)
    ensures TableOk(Apply(t, ev))
  {
    if ev.Start? {
      if ev.id !in t.sessions && |t.listed| < MAX_SESSIONS {
        StartedIsOk(ev.intervalEnabled, ev.startedAt + Lifetime(ev.maxMs), ev.reading);
        StartIsOk(t, ev.id, Started(ev.intervalEnabled, ev.startedAt + Lifetime(ev.maxMs), ev.reading));
      }
    } else if ev.id in t.sessions {
      var s, listed := t.sessions[ev.id], ev.id in t.listed;
      assert EntryOk(s, listed);
      match ev
      case Happened(id, e) =>
        if !e.Closed? {
          ReactEntry(s, listed, e);
          UpdateIsOk(t, id, React(s, e), t.listed);
        }
      case Close(id, now) =>
        if listed {
          CloseEntry(s, now);
          UpdateIsOk(t, id, React(s, Closed(now)), t.listed - {id});
        }
      case Evict(id) =>
        if s.evictionArmed {
          EvictEntry(s, listed);
          UpdateIsOk(t, id, s.(evictionArmed := false), t.listed - {id});
        }
      case _ =>
    }
  }

  /** Over every run of the table: at most 8 sessions, and none stranded without an armed timer. */
  lemma {:induction false} EveryTableIsOk(events: seq<TableEvent>)
    ensures TableOk(ApplyAll(EMPTY, events))
  {
    if |events| == 0 {
    } else {
      EveryTableIsOk(events[..|events| - 1]);
      ApplyIsOk(ApplyAll(EMPTY, events[..|events| - 1]), events[|events| - 1]);
    }
  }

  /** The armed timers alone take a session out: expiry, if it still lives, and then eviction. */
  lemma {:induction false} TimersDrain(t: Table, id: string, now: int)
    requires TableOk(t) && id in t.listed
    ensures var expired := Apply(t, Happened(id, Expired(now)));
      && TableOk(expired) && id in expired.listed && expired.sessions[id].evictionArmed
      && expired.sessions[id].timedOut && id !in Apply(expired, Evict(id)).listed
  {
    ApplyIsOk(t, Happened(id, Expired(now)));
    assert EntryOk(t.sessions[id], true);
  }

  predicate SameRecord(a: Session, b: Session) {
    a.samples == b.samples && a.counts == b.counts && a.endedAt == b.endedAt && a.timedOut == b.timedOut
  }

  lemma {:induction false} ReactToEnded(s: Session, listed: bool, ev: Event)
    requires EntryOk(s, listed) && s.endedAt.Some?
    ensures SameRecord(React(s, ev), s)
  {
  }

  lemma {:induction false} ApplyToEnded(t: Table, id: string, ev: TableEvent)
    requires TableOk(t) && id in t.sessions && t.sessions[id].endedAt.Some?
    ensures id in Apply(t, ev).sessions && SameRecord(Apply(t, ev).sessions[id], t.sessions[id])
  {
    assert EntryOk(t.sessions[id], id in t.listed);
    SessionsStay(t, ev, id);
    EntryAfter(t, ev, id);
    if ev.Happened? { ReactToEnded(t.sessions[id], id in t.listed, ev.ev); }
    if ev.Close? { ReactToEnded(t.sessions[id], id in t.listed, Closed(ev.now)); }
  }

  lemma SessionsStay(t: Table, ev: TableEvent, id: string)
    requires id in t.sessions
    ensures id in Apply(t, ev).sessions
  {
  }

  /** Nothing that happens anywhere later changes an ended session's samples, end or timeout flag. */
  lemma {:induction false} EndedStaysFinal(t: Table, id: string, events: seq<TableEvent>)
    requires TableOk(t) && id in t.sessions && t.sessions[id].endedAt.Some?
    ensures TableOk(ApplyAll(t, events)) && id in ApplyAll(t, events).sessions
    ensures SameRecord(ApplyAll(t, events).sessions[id], t.sessions[id])
  {
    if |events| == 0 {
    } else {
      var before, ev := events[..|events| - 1], events[|events| - 1];
      EndedStaysFinal(t, id, before);
      ApplyIsOk(ApplyAll(t, before), ev);
      ApplyToEnded(ApplyAll(t, before), id, ev);
    }
  }

  /** What a close answers with. */
  datatype Receipt = Receipt(samples: seq<Sample>, counts: map<Producer, nat>, endedAt: int, timedOut: bool)

  ghost predicate Answers(t: Table, id: string, now: int, r: Option<Receipt>) {
    match r
    case None => id !in t.listed
    case Some(receipt) =>
      && id in t.listed && id in t.sessions
      && receipt.samples == t.sessions[id].samples && receipt.counts == t.sessions[id].counts
      && receipt.timedOut == (t.sessions[id].endedAt.Some? && t.sessions[id].timedOut)
      && receipt.endedAt == match t.sessions[id].endedAt case None => now case Some(at) => at
  }

  // ---------------------------------------------------------------- the objects

  class TraceSession {
    var samples: seq<Sample>
    var producerCounts: map<Producer, nat>
    var endedAt: Option<int>
    var timedOut: bool
    var presentation: Option<Closure>
    var subscribed: bool
    var listeners: seq<Closure>
    var observers: seq<Closure>
    var interval: Option<Closure>
    var presentationFrame: Option<Closure>
    const intervalEnabled: bool
    const expiresAt: int
    var expiryArmed: bool
    var evictionArmed: bool

    ghost function View(): Session
      reads this
    {
      Session(samples, producerCounts, endedAt, timedOut, presentation, subscribed, listeners, observers,
              interval, presentationFrame, intervalEnabled, expiresAt, expiryArmed, evictionArmed)
    }

    constructor (intervalEnabled: bool, expiresAt: int, reading: int)
      ensures View() == Started(intervalEnabled, expiresAt, reading)
    {
      this.intervalEnabled, this.expiresAt := intervalEnabled, expiresAt;
      samples, producerCounts := [], NoCounts();
      endedAt, timedOut, presentation := None, false, None;
      subscribed, expiryArmed, evictionArmed := false, false, false;
      listeners, observers, interval, presentationFrame := [], [], None, None;
      new;
      AppendSample(AtStart, Arm, None, reading);
      subscribed := true;
      expiryArmed := true;
    }

    method AppendSample(trigger: Trigger, producer: Producer, c: Option<Closure>, reading: int)
      modifies this`samples, this`producerCounts
      ensures View() == Append(old(View()), trigger, producer, c, reading)
    {
      var transaction, committedAt := None, None;
      if c.Some? { transaction, committedAt := Some(c.value.transaction), Some(c.value.committedAt); }
      samples := samples + [Sample(|samples|, trigger, producer, transaction, committedAt, reading)];
      producerCounts := producerCounts[producer := CountOf(producerCounts, producer) + 1];
    }

    /** Installs what a commit leaves on the document. */
    method Attach(c: Closure)
      modifies this`listeners, this`observers, this`interval, this`presentationFrame
      ensures listeners == old(listeners) + [c] && observers == old(observers) + [c]
      ensures interval == (if intervalEnabled then Some(c) else None) && presentationFrame == Some(c)
    {
      listeners := listeners + [c];
      observers := observers + [c];
      interval := None;
      if intervalEnabled { interval := Some(c); }
      presentationFrame := Some(c);
    }

    method StartPresentationFrames(c: Closure, reading: int)
      modifies this
      ensures var anchored := Append(old(View()).(current := Some(c)), OnPresentationFrame, CommitAnchor, Some(c), reading);
        View() == anchored.(listeners := old(listeners) + [c], observers := old(observers) + [c],
                            interval := if intervalEnabled then Some(c) else None, frame := Some(c))
    {
      presentationFrame := None;
      presentation := Some(c);
      ghost var anchored := Append(old(View()).(current := Some(c)), OnPresentationFrame, CommitAnchor, Some(c), reading);
      AppendSample(OnPresentationFrame, CommitAnchor, Some(c), reading);
      assert samples == anchored.samples && producerCounts == anchored.counts;
      Attach(c);
    }

    method OnJournal(c: Closure, reading: int, anchorReading: int)
      modifies this
      ensures View() == React(old(View()), Committed(c, reading, anchorReading))
    {
      if !subscribed { return; }
      AppendSample(OnDomCommit, LayoutCommit, Some(c), reading);
      StartPresentationFrames(c, anchorReading);
    }

    method OnAnimationEnd(k: nat, named: bool, reading: int)
      modifies this
      ensures View() == React(old(View()), AnimationEnded(k, named, reading))
    {
      if k >= |listeners| { return; }
      var c := listeners[k];
      if endedAt.Some? || presentation.None? || presentation.value.transaction != c.transaction || !named { return; }
      AppendSample(OnPresentationFrame, AnimationEnd, Some(c), reading);
    }

    method OnMutation(k: nat, flipping: bool, reading: int)
      modifies this
      ensures View() == React(old(View()), Mutated(k, flipping, reading))
    {
      if k >= |observers| { return; }
      var c := observers[k];
      if endedAt.Some? || presentation.None? || presentation.value.transaction != c.transaction || flipping { return; }
      AppendSample(OnPresentationFrame, Settlement, Some(c), reading);
    }

    method OnInterval(now: int, reading: int)
      modifies this
      ensures View() == React(old(View()), Ticked(now, reading))
    {
      if interval.None? { return; }
      var c := interval.value;
      if endedAt.Some? || presentation.None? || presentation.value.transaction != c.transaction { return; }
      if now >= expiresAt { return; }
      AppendSample(OnPresentationFrame, IntervalTick, Some(c), reading);
    }

    method OnFrame(reading: int)
      modifies this
      ensures View() == React(old(View()), Framed(reading))
    {
      if presentationFrame.None? { return; }
      var c := presentationFrame.value;
      presentationFrame := None;
      if endedAt.Some? || presentation.None? || presentation.value.transaction != c.transaction { return; }
      AppendSample(OnPresentationFrame, FrameCallback, Some(c), reading);
      presentationFrame := Some(c);
    }

    /** Cancels what the latest commit attached. */
    method Detach()
      modifies this`subscribed, this`presentationFrame, this`listeners, this`observers, this`interval
      ensures !subscribed && presentationFrame.None? && interval.None?
      ensures listeners == ButLast(old(listeners)) && observers == ButLast(old(observers))
    {
      subscribed := false;
      presentationFrame := None;
      listeners := ButLast(listeners);
      observers := ButLast(observers);
      interval := None;
    }

    method Finish(timedOut: bool, now: int)
      modifies this
      ensures View() == TraceMachine.Finish(old(View()), timedOut, now)
    {
      if endedAt.Some? { return; }
      endedAt := Some(now);
      this.timedOut := timedOut;
      Detach();
      presentation := None;
      expiryArmed := false;
      evictionArmed := timedOut;
    }

    method OnClose(now: int)
      modifies this
      ensures View() == React(old(View()), Closed(now))
    {
      Finish(false, now);
      evictionArmed := false;
    }

    method OnExpiry(now: int)
      modifies this
      ensures View() == React(old(View()), Expired(now))
    {
      if expiryArmed { Finish(true, now); }
    }
  }

  class Recorder {
    var sessions: map<string, TraceSession>
    ghost var all: map<string, TraceSession>     // sessions outlive their place in the table

    ghost predicate Valid()
      reads this
    {
      && sessions.Keys <= all.Keys
      && (forall id :: id in sessions ==> sessions[id] == all[id])
      && (forall a, b :: a in all && b in all && a != b ==> all[a] != all[b])
    }

    ghost function View(): Table
      reads this, all.Values
    {
      Table(map id | id in all :: all[id].View(), sessions.Keys)
    }

    constructor ()
      ensures Valid() && View() == EMPTY && all == map[]
    {
      sessions, all := map[], map[];
    }

    /** What the table looks like once one session has changed or been added. */
    twostate lemma OneChanged(id: string, new session: TraceSession)
      requires old(Valid()) && all == old(all)[id := session]
      requires forall k :: k in old(all) && k != id ==> unchanged(old(all)[k])
      ensures View() == Table(old(View()).sessions[id := session.View()], sessions.Keys)
    {
      forall k | k in all && k != id ensures all[k].View() == old(all[k].View()) {
        assert unchanged(old(all)[k]);
      }
      assert View().sessions.Keys == old(View()).sessions[id := session.View()].Keys;
    }

    method Insert(id: string, session: TraceSession, ghost t: Table, ghost s: Session)
      requires Valid() && id !in all && session !in all.Values && View() == t && session.View() == s
      modifies this
      ensures Valid() && all == old(all)[id := session]
      ensures View() == Table(t.sessions[id := s], t.listed + {id})
    {
      sessions := sessions[id := session];
      all := all[id := session];
      OneChanged(id, session);
    }

    method Open(id: string, intervalEnabled: bool, expiresAt: int, reading: int, ghost t: Table, ghost s: Session)
      requires Valid() && id !in all && View() == t && s == Started(intervalEnabled, expiresAt, reading)
      modifies this
      ensures Valid() && View() == Table(t.sessions[id := s], t.listed + {id})
    {
      var session := new TraceSession(intervalEnabled, expiresAt, reading);
      assert View() == t;
      Insert(id, session, t, s);
    }

    method StartTrace(id: string, startedAt: int, maxMs: int, intervalEnabled: bool, reading: int) returns (ok: bool)
      requires Valid() && id !in all
      modifies this
      ensures Valid() && View() == Apply(old(View()), Start(id, startedAt, maxMs, intervalEnabled, reading))
      ensures ok <==> |old(sessions).Keys| < MAX_SESSIONS
    {
      ghost var t := View();
      ok := |sessions.Keys| < MAX_SESSIONS;
      ghost var s := StartingApplied(t, id, startedAt, maxMs, intervalEnabled, reading);
      if ok { Open(id, intervalEnabled, startedAt + Lifetime(maxMs), reading, t, s); }
    }

    /** One session of the table hears of a commit. */
    method Hear(id: string, c: Closure, reading: int, anchorReading: int)
      requires Valid() && id in sessions
      modifies sessions[id]
      ensures Valid() && all == old(all)
      ensures View() == Table(old(View()).sessions[id := React(old(sessions[id].View()), Committed(c, reading, anchorReading))],
                              old(View()).listed)
    {
      var session := sessions[id];
      session.OnJournal(c, reading, anchorReading);
      assert all == old(all)[id := session];
      OneChanged(id, session);
    }

    method Remove(session: TraceSession, id: string, now: int)
      requires Valid() && id in sessions && sessions[id] == session
      modifies this, session
      ensures Valid() && all == old(all)
      ensures View() == Table(old(View()).sessions[id := React(old(session.View()), Closed(now))], old(View()).listed - {id})
      ensures session.View() == React(old(session.View()), Closed(now))
    {
      session.OnClose(now);
      sessions := sessions - {id};
      assert all == old(all)[id := session];
      OneChanged(id, session);
    }

    method CloseTrace(id: string, now: int) returns (receipt: Option<Receipt>)
      requires Valid()
      modifies this, all.Values
      ensures Valid() && all == old(all) && View() == Apply(old(View()), Close(id, now))
      ensures Answers(old(View()), id, now, receipt)
    {
      if id !in sessions { return None; }
      var session := sessions[id];
      ghost var t := View();
      assert t.sessions[id] == session.View();
      ghost var s := ClosingApplied(t, id, now);
      Remove(session, id, now);
      assert session.View().endedAt.Some?;
      receipt := Some(Receipt(session.samples, session.producerCounts, session.endedAt.value, session.timedOut));
    }

    method Evict(session: TraceSession, id: string)
      requires Valid() && id in all && all[id] == session
      modifies this`sessions, session`evictionArmed
      ensures Valid()
      ensures View() == Table(old(View()).sessions[id := old(session.View()).(evictionArmed := false)],
                              old(View()).listed - {id})
    {
      session.evictionArmed := false;
      assert session.View() == old(session.View()).(evictionArmed := false);
      if id in sessions && sessions[id] == session { sessions := sessions - {id}; }
      OneChanged(id, session);
    }

    /** The one-shot timer that takes a timed-out session's receipt back. */
    method OnEviction(session: TraceSession, id: string)
      requires Valid() && id in all && all[id] == session
      modifies this`sessions, session`evictionArmed
      ensures Valid() && View() == Apply(old(View()), TableEvent.Evict(id))
    {
      ghost var t := View();
      assert t.sessions.Keys == all.Keys && t.sessions[id] == session.View();
      if session.evictionArmed {
        ghost var s := EvictionApplied(t, id);
        Evict(session, id);
      }
    }
  }
}
