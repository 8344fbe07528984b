/** The journal of layout transitions (src/lib/layoutTransitionJournal.ts), the one source of the commits a
    trace hears of: every prepared transition gets a fresh id, and publishes its commit at most once. */
module LayoutJournal {
  import opened JsValues
  import opened TraceMachine

  /** Transitions 1 to `sequence` have been prepared; the closed ones are committed or cancelled. */
  datatype Journal = Journal(sequence: nat, closed: set<nat>)

  datatype JournalEvent = Prepare | Commit(n: nat, now: int) | Cancel(n: nat)

  function IdOf(n: nat): string {
    "layout-" + Decimal(n)
  }

  predicate IsOpen(j: Journal, n: nat) {
    1 <= n <= j.sequence && n !in j.closed
  }

  function Step(j: Journal, ev: JournalEvent): Journal {
    match ev
    case Prepare => j.(sequence := j.sequence + 1)
    case Commit(n, _) => if IsOpen(j, n) then j.(closed := j.closed + {n}) else j
    case Cancel(n) => if IsOpen(j, n) then j.(closed := j.closed + {n}) else j
  }

  /** The `dom-committed` event of one step. */
  function Publication(j: Journal, ev: JournalEvent): Option<Closure> {
    match ev
    case Commit(n, now) => if IsOpen(j, n) then Some(Closure(IdOf(n), now)) else None
    case _ => None
  }

  // ---------------------------------------------------------------- its history

  /** The journal after these events, from its beginning. */
  function JournalOf(events: seq<JournalEvent>): Journal {
    if |events| == 0 then Journal(0, {}) else Step(JournalOf(events[..|events| - 1]), events[|events| - 1])
  }

  function Prepared(events: seq<JournalEvent>): nat {
    if |events| == 0 then 0
    else Prepared(events[..|events| - 1]) + if events[|events| - 1].Prepare? then 1 else 0
  }

  /** Event number `k` commits or cancels transition `n`, which had been prepared by then. */
  predicate SettledAt(events: seq<JournalEvent>, n: nat, k: nat) {
    && k < |events| && !events[k].Prepare? && events[k].n == n
    && 1 <= n <= Prepared(events[..k])
  }

  lemma {:induction false} SettledOneMore(events: seq<JournalEvent>, n: nat)
    requires |events| > 0
    ensures var m := |events| - 1;
      (exists k: nat :: SettledAt(events, n, k)) <==> SettledAt(events, n, m) || exists k: nat :: SettledAt(events[..m], n, k)
  {
    var m := |events| - 1;
    forall k: nat | k < m ensures SettledAt(events, n, k) <==> SettledAt(events[..m], n, k) {
      assert events[..m][..k] == events[..k];
    }
    if k: nat :| SettledAt(events[..m], n, k) { assert SettledAt(events, n, k); }
  }

  /** As many transitions are open or closed as were prepared, and closed are those that were settled since. */
  lemma {:induction false} JournalIsHistory(events: seq<JournalEvent>, n: nat)
    ensures JournalOf(events).sequence == Prepared(events)
    ensures n in JournalOf(events).closed <==> exists k: nat :: SettledAt(events, n, k)
  {
    if |events| == 0 {
    } else {
      JournalIsHistory(events[..|events| - 1], n);
      SettledOneMore(events, n);
    }
  }

  /** A commit is published exactly if its transition was prepared, and neither committed nor cancelled before. */
  lemma {:induction false} PublishedExactly(events: seq<JournalEvent>, n: nat, now: int)
    ensures Publication(JournalOf(events), Commit(n, now)) ==
      if 1 <= n <= Prepared(events) && !(exists k: nat :: SettledAt(events, n, k))
      then Some(Closure("layout-" + Decimal(n), now)) else None
  {
    JournalIsHistory(events, n);
  }

  // ---------------------------------------------------------------- what a trace hears

  /** The journal moves on, or something fires on the trace itself. */
  datatype Happening =
    | Layout(ev: JournalEvent, reading: int, anchorReading: int)
    | Fired(callback: Event)

  function JournalAfter(j: Journal, run: seq<Happening>): Journal {
    if |run| == 0 then j
    else
      var before, last := JournalAfter(j, run[..|run| - 1]), run[|run| - 1];
      if last.Layout? then Step(before, last.ev) else before
  }

  /** What one happening brings to the session. Commits come from the journal alone. */
  function Heard(j: Journal, happening: Happening): seq<Event> {
    match happening
    case Fired(callback) => if callback.Committed? then [] else [callback]
    case Layout(ev, reading, anchorReading) =>
      match Publication(j, ev)
      case None => []
      case Some(c) => [Committed(c, reading, anchorReading)]
  }

  function AllHeard(j: Journal, run: seq<Happening>): seq<Event> {
    if |run| == 0 then []
    else AllHeard(j, run[..|run| - 1]) + Heard(JournalAfter(j, run[..|run| - 1]), run[|run| - 1])
  }

  predicate IsClosedId(j: Journal, transaction: string) {
    exists n :: n in j.closed && transaction == IdOf(n)
  }

  lemma {:induction false} IdsDiffer(j: Journal, n: nat)
    requires n !in j.closed
    ensures !IsClosedId(j, IdOf(n))
  {
    forall m | m in j.closed ensures IdOf(n) != IdOf(m) {
      if IdOf(n) == IdOf(m) {
        assert Decimal(n) == IdOf(n)[7..] && Decimal(m) == IdOf(m)[7..];
        DecimalIsInjective(n, m);
      }
    }
  }

  predicate DistinctCommits(events: seq<Event>) {
    forall i, k :: 0 <= i < k < |events| && events[i].Committed? && events[k].Committed? ==>
      events[i].c.transaction != events[k].c.transaction
  }

  predicate AllClosed(j: Journal, events: seq<Event>) {
    forall i :: 0 <= i < |events| && events[i].Committed? ==> IsClosedId(j, events[i].c.transaction)
  }

  lemma {:induction false} ClosedStaysClosed(j: Journal, happening: Happening, transaction: string)
    requires IsClosedId(j, transaction) && happening.Layout?
    ensures IsClosedId(Step(j, happening.ev), transaction)
  {
    var n :| n in j.closed && transaction == IdOf(n);
    assert n in Step(j, happening.ev).closed;
  }

  lemma {:induction false} OneMoreHeard(j: Journal, events: seq<Event>, happening: Happening)
    requires AllClosed(j, events) && DistinctCommits(events)
    ensures AllClosed(if happening.Layout? then Step(j, happening.ev) else j, events + Heard(j, happening))
    ensures DistinctCommits(events + Heard(j, happening))
  {
    if happening.Layout? {
      forall i | 0 <= i < |events| && events[i].Committed?
        ensures IsClosedId(Step(j, happening.ev), events[i].c.transaction)
      {
        ClosedStaysClosed(j, happening, events[i].c.transaction);
      }
      if happening.ev.Commit? && IsOpen(j, happening.ev.n) {
        IdsDiffer(j, happening.ev.n);
        assert happening.ev.n in Step(j, happening.ev).closed;
      }
    }
  }

  /** From any journal on, no transaction is heard to commit twice. */
  lemma {:induction false} HeardOnce(j: Journal, run: seq<Happening>)
    ensures DistinctCommits(AllHeard(j, run)) && AllClosed(JournalAfter(j, run), AllHeard(j, run))
  {
    if |run| == 0 {
    } else {
      HeardOnce(j, run[..|run| - 1]);
      OneMoreHeard(JournalAfter(j, run[..|run| - 1]), AllHeard(j, run[..|run| - 1]), run[|run| - 1]);
    }
  }

  /** In every interleaving of layout transitions, callbacks (stale ones included) and expiry, the ledger is
      one `arm` sample followed by whole blocks, each of one transaction and one commit time, numbered and
      counted exactly. */
  lemma {:induction false} EveryLedgerIsBlocks(
    j: Journal, run: seq<Happening>, intervalEnabled: bool, expiresAt: int, reading: int)
    ensures var s := ReactAll(Started(intervalEnabled, expiresAt, reading), AllHeard(j, run));
      SessionOk(s) && WellTold(s)
  {
    var events := AllHeard(j, run);
    HeardOnce(j, run);
    assert OneTimeEach(events);
    OneTimeEachIsUniform(intervalEnabled, expiresAt, reading, events);
    OkIsWellTold(ReactAll(Started(intervalEnabled, expiresAt, reading), events));
  }

  // ---------------------------------------------------------------- the object

  class TransitionJournal {
    var sequence: nat
    var closed: set<nat>               // the `closed` flag of every prepared transition
    ghost var published: seq<Closure>

    ghost function View(): Journal
      reads this
    {
      Journal(sequence, closed)
    }

    constructor ()
      ensures View() == Journal(0, {}) && published == []
    {
      sequence, closed, published := 0, {}, [];
    }

    /** `journalPreparedLayoutTransition`. */
    method PrepareTransition() returns (n: nat)
      modifies this`sequence
      ensures View() == Step(old(View()), Prepare) && n == sequence
    {
      sequence := sequence + 1;
      n := sequence;
    }

    /** `commit`, up to its first await. */
    method CommitTransition(n: nat, now: int) returns (event: Option<Closure>)
      requires 1 <= n <= sequence
      modifies this`closed, this`published
      ensures View() == Step(old(View()), Commit(n, now)) && event == Publication(old(View()), Commit(n, now))
      ensures published == old(published) + if event.Some? then [event.value] else []
    {
      if n in closed { return None; }
      closed := closed + {n};
      event := Some(Closure(IdOf(n), now));
      published := published + [event.value];
    }

    /** `cancel`. */
    method CancelTransition(n: nat)
      requires 1 <= n <= sequence
      modifies this`closed
      ensures View() == Step(old(View()), Cancel(n))
    {
      if n !in closed { closed := closed + {n}; }
    }
  }
}
