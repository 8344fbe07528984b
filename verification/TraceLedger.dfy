/** The whole ledger of one trace session, told from what happened alone (src/commands/catalogDom.ts): no
    listeners, guards or timers, only the commits so far and whether the session is over. */
module TraceLedger {
  import opened JsValues
  import opened TraceMachine
  import opened TraceTable

  predicate Ends(ev: Event) {
    ev.Expired? || ev.Closed?
  }

  predicate Over(events: seq<Event>) {
    exists i :: 0 <= i < |events| && Ends(events[i])
  }

  /** The commits of the run, oldest first. */
  function Commits(events: seq<Event>): seq<Closure> {
    if |events| == 0 then []
    else
      var before, last := Commits(events[..|events| - 1]), events[|events| - 1];
      if last.Committed? then before + [last.c] else before
  }

  function Latest(events: seq<Event>): Option<Closure> {
    var commits := Commits(events);
    if |commits| == 0 then None else Some(commits[|commits| - 1])
  }

  function Of(n: nat, trigger: Trigger, producer: Producer, c: Closure, reading: int): Sample {
    Sample(n, trigger, producer, Some(c.transaction), Some(c.committedAt), reading)
  }

  /** The callback that commit number `k` left on the document still speaks for the latest transaction. */
  predicate Speaks(events: seq<Event>, k: nat) {
    k < |Commits(events)| && Commits(events)[k].transaction == Latest(events).value.transaction
  }

  /** What `ev` adds after `events`, when the ledger has `n` samples. */
  function Added(intervalEnabled: bool, expiresAt: int, events: seq<Event>, n: nat, ev: Event): seq<Sample> {
    var latest := Latest(events);
    if Over(events) then []
    else match ev
      case Committed(c, reading, anchorReading) =>
        [Of(n, OnDomCommit, LayoutCommit, c, reading), Of(n + 1, OnPresentationFrame, CommitAnchor, c, anchorReading)]
      case AnimationEnded(k, named, reading) =>
        if named && Speaks(events, k)
        then [Of(n, OnPresentationFrame, AnimationEnd, Commits(events)[k], reading)] else []
      case Mutated(k, flipping, reading) =>
        if !flipping && Speaks(events, k)
        then [Of(n, OnPresentationFrame, Settlement, Commits(events)[k], reading)] else []
      case Ticked(now, reading) =>
        if intervalEnabled && latest.Some? && now < expiresAt
        then [Of(n, OnPresentationFrame, IntervalTick, latest.value, reading)] else []
      case Framed(reading) =>
        if latest.Some? then [Of(n, OnPresentationFrame, FrameCallback, latest.value, reading)] else []
      case Expired(_) => []
      case Closed(_) => []
  }

  function Ledger(intervalEnabled: bool, expiresAt: int, reading: int, events: seq<Event>): seq<Sample> {
    if |events| == 0 then [Sample(0, AtStart, Arm, None, None, reading)]
    else
      var before := events[..|events| - 1];
      var told := Ledger(intervalEnabled, expiresAt, reading, before);
      told + Added(intervalEnabled, expiresAt, before, |told|, events[|events| - 1])
  }

  /** The event that ended the session, if one did. */
  function Ending(events: seq<Event>): Option<Event> {
    if |events| == 0 then None
    else
      var before, last := Ending(events[..|events| - 1]), events[|events| - 1];
      if before.None? && Ends(last) then Some(last) else before
  }

  lemma {:induction false} EndingMeansOver(events: seq<Event>)
    ensures Ending(events).Some? <==> Over(events)
    ensures Ending(events).Some? ==> Ends(Ending(events).value)
  {
    if |events| == 0 {
    } else {
      var before := events[..|events| - 1];
      EndingMeansOver(before);
      if Over(before) {
        var i :| 0 <= i < |before| && Ends(before[i]);
        assert Ends(events[i]);
      }
      if Over(events) && !Ends(events[|events| - 1]) {
        var i :| 0 <= i < |events| && Ends(events[i]);
        assert Ends(before[i]);
      }
    }
  }

  /** What the machine holds after a run. */
  ghost predicate Holds(s: Session, intervalEnabled: bool, expiresAt: int, events: seq<Event>) {
    && SessionOk(s) && s.intervalEnabled == intervalEnabled && s.expiresAt == expiresAt
    && (s.endedAt.Some? <==> Over(events))
    && (!Over(events) ==>
          && s.listeners == Commits(events) && s.observers == Commits(events)
          && s.current == Latest(events) && s.frame == Latest(events)
          && s.interval == if intervalEnabled then Latest(events) else None)
  }

  lemma {:induction false} OneMoreEvent(events: seq<Event>, ev: Event)
    ensures Over(events + [ev]) <==> Over(events) || Ends(ev)
    ensures Commits(events + [ev]) == Commits(events) + if ev.Committed? then [ev.c] else []
  {
    var more := events + [ev];
    assert more[..|events|] == events && more[|events|] == ev;
    if Over(events) {
      var i :| 0 <= i < |events| && Ends(events[i]);
      assert Ends(more[i]);
    }
  }

  /** A session that is over adds nothing; one that lives adds what its commits say. */
  lemma {:induction false} AddsExactly(s: Session, intervalEnabled: bool, expiresAt: int, events: seq<Event>, ev: Event)
    requires Holds(s, intervalEnabled, expiresAt, events)
    ensures React(s, ev).samples == s.samples + Added(intervalEnabled, expiresAt, events, |s.samples|, ev)
  {
  }

  lemma {:induction false} CommitHolds(s: Session, intervalEnabled: bool, expiresAt: int, events: seq<Event>, ev: Event)
    requires Holds(s, intervalEnabled, expiresAt, events) && ev.Committed?
    ensures Holds(React(s, ev), intervalEnabled, expiresAt, events + [ev])
  {
    OneMoreEvent(events, ev);
    ReactIsOk(s, ev);
  }

  lemma {:induction false} EndHolds(s: Session, intervalEnabled: bool, expiresAt: int, events: seq<Event>, ev: Event)
    requires Holds(s, intervalEnabled, expiresAt, events) && Ends(ev)
    ensures Holds(React(s, ev), intervalEnabled, expiresAt, events + [ev])
  {
    OneMoreEvent(events, ev);
    ReactIsOk(s, ev);
  }

  lemma {:induction false} CallbackHolds(s: Session, intervalEnabled: bool, expiresAt: int, events: seq<Event>, ev: Event)
    requires Holds(s, intervalEnabled, expiresAt, events) && !ev.Committed? && !Ends(ev)
    ensures Holds(React(s, ev), intervalEnabled, expiresAt, events + [ev])
  {
    OneMoreEvent(events, ev);
    ReactIsOk(s, ev);
  }

  lemma {:induction false} StillHolds(s: Session, intervalEnabled: bool, expiresAt: int, events: seq<Event>, ev: Event)
    requires Holds(s, intervalEnabled, expiresAt, events)
    ensures Holds(React(s, ev), intervalEnabled, expiresAt, events + [ev])
  {
    if ev.Committed? {
      CommitHolds(s, intervalEnabled, expiresAt, events, ev);
    } else if Ends(ev) {
      EndHolds(s, intervalEnabled, expiresAt, events, ev);
    } else {
      CallbackHolds(s, intervalEnabled, expiresAt, events, ev);
    }
  }

  lemma {:induction false} RunHolds(intervalEnabled: bool, expiresAt: int, reading: int, events: seq<Event>)
    ensures Holds(ReactAll(Started(intervalEnabled, expiresAt, reading), events), intervalEnabled, expiresAt, events)
  {
    if |events| == 0 {
      StartedIsOk(intervalEnabled, expiresAt, reading);
    } else {
      var n := |events| - 1;
      RunHolds(intervalEnabled, expiresAt, reading, events[..n]);
      StillHolds(ReactAll(Started(intervalEnabled, expiresAt, reading), events[..n]), intervalEnabled, expiresAt,
                 events[..n], events[n]);
      assert events[..n] + [events[n]] == events;
    }
  }

  /** Over every run the ledger is exactly the tale of its events: each commit adds its two samples, each
      tick before expiry, each frame, each named animation end and each mutation outside a flip adds one while
      its commit's transaction is the latest, nothing else adds any, and nothing does after the end. */
  lemma {:induction false} LedgerExactly(intervalEnabled: bool, expiresAt: int, reading: int, events: seq<Event>)
    ensures ReactAll(Started(intervalEnabled, expiresAt, reading), events).samples
         == Ledger(intervalEnabled, expiresAt, reading, events)
  {
    if |events| == 0 {
    } else {
      var n := |events| - 1;
      LedgerExactly(intervalEnabled, expiresAt, reading, events[..n]);
      RunHolds(intervalEnabled, expiresAt, reading, events[..n]);
      AddsExactly(ReactAll(Started(intervalEnabled, expiresAt, reading), events[..n]), intervalEnabled, expiresAt,
                  events[..n], events[n]);
    }
  }

  lemma {:induction false} EndStep(s: Session, ev: Event)
    requires SessionOk(s)
    ensures var t := React(s, ev);
      if s.endedAt.None? && Ends(ev) then t.endedAt == Some(ev.now) && (t.timedOut <==> ev.Expired?)
      else t.endedAt == s.endedAt && t.timedOut == s.timedOut
  {
  }

  /** The first expiry or close ends the session, and says when and how. */
  lemma {:induction false} EndsExactly(intervalEnabled: bool, expiresAt: int, reading: int, events: seq<Event>)
    ensures var s := ReactAll(Started(intervalEnabled, expiresAt, reading), events);
      match Ending(events)
      case None => s.endedAt.None?
      case Some(ev) => Ends(ev) && s.endedAt == Some(ev.now) && (s.timedOut <==> ev.Expired?)
  {
    EndingMeansOver(events);
    if |events| == 0 {
    } else {
      var n := |events| - 1;
      EndsExactly(intervalEnabled, expiresAt, reading, events[..n]);
      RunHolds(intervalEnabled, expiresAt, reading, events[..n]);
      EndStep(ReactAll(Started(intervalEnabled, expiresAt, reading), events[..n]), events[n]);
    }
  }

  // ---------------------------------------------------------------- through the table

  /** What an event at the table says to one session. */
  function Said(ev: TableEvent, id: string): Option<Event> {
    if ev.Happened? && ev.id == id && !ev.ev.Closed? then Some(ev.ev)
    else if ev.Close? && ev.id == id then Some(Closed(ev.now))
    else None
  }

  /** What happened to one session, among all that happened at the table. */
  function About(events: seq<TableEvent>, id: string): seq<Event> {
    if |events| == 0 then []
    else
      var before := About(events[..|events| - 1], id);
      match Said(events[|events| - 1], id) case None => before case Some(e) => before + [e]
  }

  /** Event number `k` starts this session: the id is new, and fewer than 8 are in the table. */
  ghost predicate StartsAt(events: seq<TableEvent>, id: string, k: nat) {
    && k < |events| && events[k].Start? && events[k].id == id
    && id !in ApplyAll(EMPTY, events[..k]).sessions && |ApplyAll(EMPTY, events[..k]).listed| < MAX_SESSIONS
  }

  /** The machine of this session, run by itself. */
  function Alone(events: seq<TableEvent>, id: string, k: nat): Session
    requires k < |events| && events[k].Start?
  {
    ReactAll(Started(events[k].intervalEnabled, events[k].startedAt + Lifetime(events[k].maxMs), events[k].reading),
             About(events[k + 1..], id))
  }

  predicate SameButEviction(s: Session, t: Session) {
    s.(evictionArmed := false) == t.(evictionArmed := false)
  }

  lemma {:induction false} ObserveAlike(s: Session, t: Session, producer: Producer, c: Closure, reading: int)
    requires SameButEviction(s, t)
    ensures SameButEviction(Observe(s, producer, c, reading), Observe(t, producer, c, reading))
  {
  }

  lemma {:induction false} CommitAlike(s: Session, t: Session, c: Closure, reading: int, anchorReading: int)
    requires SameButEviction(s, t)
    ensures SameButEviction(Commit(s, c, reading, anchorReading), Commit(t, c, reading, anchorReading))
  {
  }

  lemma {:induction false} FinishAlike(s: Session, t: Session, timedOut: bool, now: int)
    requires SameButEviction(s, t)
    ensures SameButEviction(Finish(s, timedOut, now), Finish(t, timedOut, now))
  {
  }

  lemma {:induction false} ListenerAlike(s: Session, t: Session, ev: Event)
    requires SameButEviction(s, t) && (ev.AnimationEnded? || ev.Mutated?)
    ensures SameButEviction(React(s, ev), React(t, ev))
  {
    assert s.listeners == t.listeners && s.observers == t.observers;
    match ev
    case AnimationEnded(k, _, reading) =>
      if k < |s.listeners| { ObserveAlike(s, t, AnimationEnd, s.listeners[k], reading); }
    case Mutated(k, _, reading) =>
      if k < |s.observers| { ObserveAlike(s, t, Settlement, s.observers[k], reading); }
  }

  lemma {:induction false} TimerAlike(s: Session, t: Session, ev: Event)
    requires SameButEviction(s, t) && (ev.Ticked? || ev.Framed?)
    ensures SameButEviction(React(s, ev), React(t, ev))
  {
    assert s.interval == t.interval && s.frame == t.frame && s.expiresAt == t.expiresAt;
    match ev
    case Ticked(_, reading) =>
      if s.interval.Some? { ObserveAlike(s, t, IntervalTick, s.interval.value, reading); }
    case Framed(reading) =>
      if s.frame.Some? { ObserveAlike(s, t, FrameCallback, s.frame.value, reading); }
  }

  lemma {:induction false} ReactAlike(s: Session, t: Session, ev: Event)
    requires SameButEviction(s, t)
    ensures SameButEviction(React(s, ev), React(t, ev))
  {
    match ev
    case Committed(c, reading, anchorReading) => CommitAlike(s, t, c, reading, anchorReading);
    case Expired(now) => FinishAlike(s, t, true, now);
    case Closed(now) => FinishAlike(s, t, false, now);
    case AnimationEnded(_, _, _) => ListenerAlike(s, t, ev);
    case Mutated(_, _, _) => ListenerAlike(s, t, ev);
    case Ticked(_, _) => TimerAlike(s, t, ev);
    case Framed(_) => TimerAlike(s, t, ev);
  }

  lemma {:induction false} OneMoreAbout(events: seq<TableEvent>, id: string, k: nat)
    requires k < |events| - 1 && events[k].Start?
    ensures var n := |events| - 1;
      Alone(events, id, k) ==
        match Said(events[n], id)
        case None => Alone(events[..n], id, k)
        case Some(e) => React(Alone(events[..n], id, k), e)
  {
    var n, tail := |events| - 1, events[k + 1..];
    assert tail[..|tail| - 1] == events[..n][k + 1..] && tail[|tail| - 1] == events[n];
    var about := About(events[..n][k + 1..], id);
    if Said(events[n], id).Some? {
      assert (about + [Said(events[n], id).value])[..|about|] == about;
    }
  }

  lemma {:induction false} ApplyAlike(t: Table, ev: TableEvent, id: string, s: Session)
    requires TableOk(t) && id in t.sessions && SameButEviction(t.sessions[id], s)
    ensures id in Apply(t, ev).sessions
    ensures SameButEviction(Apply(t, ev).sessions[id], match Said(ev, id) case None => s case Some(e) => React(s, e))
  {
    assert EntryOk(t.sessions[id], id in t.listed);
    match Said(ev, id)
    case None =>
    case Some(e) => ReactAlike(t.sessions[id], s, e);
  }

  /** The next event at the table moves a session as it would move it by itself. */
  lemma {:induction false} NextAlike(events: seq<TableEvent>, id: string, k: nat)
    requires k < |events| - 1 && events[k].Start?
    requires var t := ApplyAll(EMPTY, events[..|events| - 1]);
      id in t.sessions && SameButEviction(t.sessions[id], Alone(events[..|events| - 1], id, k))
    ensures var t := ApplyAll(EMPTY, events);
      id in t.sessions && SameButEviction(t.sessions[id], Alone(events, id, k))
  {
    var n := |events| - 1;
    EveryTableIsOk(events[..n]);
    ApplyAlike(ApplyAll(EMPTY, events[..n]), events[n], id, Alone(events[..n], id, k));
    OneMoreAbout(events, id, k);
  }

  /** In every run of the table each session was started once and is what its own events make it. */
  lemma {:induction false} SessionIsAlone(events: seq<TableEvent>, id: string) returns (k: nat)
    requires id in ApplyAll(EMPTY, events).sessions
    ensures StartsAt(events, id, k) && SameButEviction(ApplyAll(EMPTY, events).sessions[id], Alone(events, id, k))
  {
    var n := |events| - 1;
    var t := ApplyAll(EMPTY, events[..n]);
    if id in t.sessions {
      k := SessionIsAlone(events[..n], id);
      assert events[..n][..k] == events[..k];
      NextAlike(events, id, k);
    } else {
      k := n;
      EntryAfter(t, events[n], id);
      assert About(events[n + 1..], id) == [];
    }
  }

  function LedgerFrom(events: seq<TableEvent>, id: string, k: nat): seq<Sample>
    requires k < |events| && events[k].Start?
  {
    Ledger(events[k].intervalEnabled, events[k].startedAt + Lifetime(events[k].maxMs), events[k].reading,
           About(events[k + 1..], id))
  }

  /** Over every run of the table: what a close hands out is the whole tale of its session, and nothing else. */
  lemma {:induction false} ReceiptIsTheLedger(events: seq<TableEvent>, id: string, now: int, receipt: Receipt)
    requires Answers(ApplyAll(EMPTY, events), id, now, Some(receipt))
    ensures exists k: nat :: StartsAt(events, id, k) && receipt.samples == LedgerFrom(events, id, k)
  {
    var k := SessionIsAlone(events, id);
    LedgerExactly(events[k].intervalEnabled, events[k].startedAt + Lifetime(events[k].maxMs), events[k].reading,
                  About(events[k + 1..], id));
  }
}
