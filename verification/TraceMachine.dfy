/** The multi-DOM trace recorder as a state machine (src/commands/catalogDom.ts).

    A layout commit hands the document an animation listener, a mutation observer, an interval and a
    frame callback, each closed over the commit's transaction and time. A later commit replaces the
    interval and the frame callback, but leaves the earlier listeners and observers attached; finishing
    detaches only the latest of them. Any of these may fire at any moment. */
module TraceMachine {
  import opened JsValues

  datatype Producer = Arm | LayoutCommit | CommitAnchor | FrameCallback | IntervalTick | AnimationEnd | Settlement

  datatype Trigger = AtStart | OnDomCommit | OnPresentationFrame

  /** What the participants looked like and when is opaque: `reading`. */
  datatype Sample = Sample(
    sequence: nat, trigger: Trigger, producer: Producer,
    transaction: Option<string>, committedAt: Option<int>, reading: int)

  /** What the callbacks of one commit remember. */
  datatype Closure = Closure(transaction: string, committedAt: int)

  datatype Session = Session(
    samples: seq<Sample>,
    counts: map<Producer, nat>,
    endedAt: Option<int>,
    timedOut: bool,
    current: Option<Closure>,          // presentationTransactionId and presentationDomCommittedAtUnixMs
    subscribed: bool,
    listeners: seq<Closure>,           // animationend listeners on the document, oldest first
    observers: seq<Closure>,           // mutation observers, oldest first
    interval: Option<Closure>,
    frame: Option<Closure>,            // the frame callback that has not fired yet
    intervalEnabled: bool,
    expiresAt: int,
    expiryArmed: bool,
    evictionArmed: bool)

  const MAX_SESSIONS: nat := 8
  const MAX_MS: int := 15000

  function NoCounts(): map<Producer, nat> {
    map[Arm := 0, LayoutCommit := 0, CommitAnchor := 0, FrameCallback := 0, IntervalTick := 0, AnimationEnd := 0, Settlement := 0]
  }

  function CountOf(counts: map<Producer, nat>, p: Producer): nat {
    if p in counts then counts[p] else 0
  }

  // ---------------------------------------------------------------- one session

  /** `appendMultiDomTraceSample`. */
  function Append(s: Session, trigger: Trigger, producer: Producer, c: Option<Closure>, reading: int): Session {
    var sample := match c
      case None => Sample(|s.samples|, trigger, producer, None, None, reading)
      case Some(k) => Sample(|s.samples|, trigger, producer, Some(k.transaction), Some(k.committedAt), reading);
    s.(samples := s.samples + [sample], counts := s.counts[producer := CountOf(s.counts, producer) + 1])
  }

  /** A session right after `ui.trace.multi.start`. */
  function Started(intervalEnabled: bool, expiresAt: int, reading: int): Session {
    var blank := Session([], NoCounts(), None, false, None, false, [], [], None, None, intervalEnabled, expiresAt, false, false);
    Append(blank, AtStart, Arm, None, reading).(subscribed := true, expiryArmed := true)
  }

  /** The journal listener: the commit's own sample, then `startMultiDomPresentationFrames`. */
  function Commit(s: Session, c: Closure, reading: int, anchorReading: int): Session {
    var committed := Append(s, OnDomCommit, LayoutCommit, Some(c), reading);
    var anchored := Append(committed.(current := Some(c)), OnPresentationFrame, CommitAnchor, Some(c), anchorReading);
    anchored.(listeners := s.listeners + [c], observers := s.observers + [c],
              interval := if s.intervalEnabled then Some(c) else None, frame := Some(c))
  }

  /** The guard in front of every callback. */
  predicate Current(s: Session, c: Closure) {
    s.endedAt.None? && s.current.Some? && s.current.value.transaction == c.transaction
  }

  function Observe(s: Session, producer: Producer, c: Closure, reading: int): Session {
    if Current(s, c) then Append(s, OnPresentationFrame, producer, Some(c), reading) else s
  }

  function ButLast<T>(items: seq<T>): seq<T> {
    if |items| == 0 then [] else items[..|items| - 1]
  }

  /** `finishMultiDomTrace`. */
  function Finish(s: Session, timedOut: bool, now: int): Session {
    if s.endedAt.Some? then s
    else
      s.(endedAt := Some(now), timedOut := timedOut, subscribed := false, frame := None, interval := None,
         listeners := ButLast(s.listeners), observers := ButLast(s.observers),
         current := None, expiryArmed := false, evictionArmed := timedOut)
  }

  /** What can happen to one session while it, or anything it left on the document, is around. */
  datatype Event =
    | Committed(c: Closure, reading: int, anchorReading: int)
    | AnimationEnded(k: nat, named: bool, reading: int)
    | Mutated(k: nat, flipping: bool, reading: int)
    | Ticked(now: int, reading: int)
    | Framed(reading: int)
    | Expired(now: int)
    | Closed(now: int)                 // `ui.trace.multi.close`, which hands the ledger out

  function React(s: Session, ev: Event): Session {
    match ev
    case Committed(c, reading, anchorReading) => if s.subscribed then Commit(s, c, reading, anchorReading) else s
    case AnimationEnded(k, named, reading) =>
      if k < |s.listeners| && named then Observe(s, AnimationEnd, s.listeners[k], reading) else s
    case Mutated(k, flipping, reading) =>
      if k < |s.observers| && !flipping then Observe(s, Settlement, s.observers[k], reading) else s
    case Ticked(now, reading) =>
      if s.interval.Some? && now < s.expiresAt then Observe(s, IntervalTick, s.interval.value, reading) else s
    case Framed(reading) =>
      if s.frame.None? then s
      else if Current(s, s.frame.value) then Observe(s, FrameCallback, s.frame.value, reading)
      else s.(frame := None)
    case Expired(now) => if s.expiryArmed then Finish(s, true, now) else s
    case Closed(now) => Finish(s, false, now).(evictionArmed := false)
  }

  // ---------------------------------------------------------------- the ledger

  function Count(samples: seq<Sample>, p: Producer): nat {
    if |samples| == 0 then 0
    else Count(samples[..|samples| - 1], p) + if samples[|samples| - 1].producer == p then 1 else 0
  }

  /** Sample `i` fits what is before it (and a commit, what is after it). */
  predicate InPlace(samples: seq<Sample>, i: nat)
    requires i < |samples|
  {
    && samples[i].sequence == i
    && (i == 0 <==> samples[i].producer == Arm)
    && (i == 0 <==> samples[i].transaction.None?)
    && (samples[i].producer == LayoutCommit ==> i + 1 < |samples| && samples[i + 1].producer == CommitAnchor)
    && (samples[i].producer == CommitAnchor ==> samples[i - 1].producer == LayoutCommit
                                                && samples[i].committedAt == samples[i - 1].committedAt)
    && (i > 0 && samples[i].producer != LayoutCommit ==> i > 1 && samples[i].transaction == samples[i - 1].transaction)
  }

  ghost predicate LedgerOk(samples: seq<Sample>) {
    |samples| > 0 && forall i :: 0 <= i < |samples| ==> InPlace(samples, i)
  }

  /** What holds of a session at every moment. */
  ghost predicate SessionOk(s: Session) {
    && LedgerOk(s.samples)
    && (forall p :: CountOf(s.counts, p) == Count(s.samples, p))
    && (s.endedAt.None? ==>
          && s.subscribed && s.expiryArmed && !s.evictionArmed && !s.timedOut
          && (s.current.Some? <==> |s.samples| > 1)
          && (s.current.Some? ==> s.samples[|s.samples| - 1].transaction == Some(s.current.value.transaction)))
    && (s.endedAt.Some? ==>
          && !s.subscribed && !s.expiryArmed && (s.evictionArmed ==> s.timedOut)
          && s.current.None? && s.interval.None? && s.frame.None?)
    && (|s.listeners| == |s.observers| == if s.endedAt.None? then Count(s.samples, LayoutCommit) else
         if Count(s.samples, LayoutCommit) == 0 then 0 else Count(s.samples, LayoutCommit) - 1)
  }

  lemma {:induction false} CountOneMore(samples: seq<Sample>, sample: Sample, p: Producer)
    ensures Count(samples + [sample], p) == Count(samples, p) + if sample.producer == p then 1 else 0
  {
    var more := samples + [sample];
    assert more[..|more| - 1] == samples;
  }

  lemma {:induction false} AppendCounts(s: Session, trigger: Trigger, producer: Producer, c: Option<Closure>, reading: int)
    requires forall p :: CountOf(s.counts, p) == Count(s.samples, p)
    ensures var t := Append(s, trigger, producer, c, reading);
      && (forall p :: CountOf(t.counts, p) == Count(t.samples, p))
      && (forall p :: Count(t.samples, p) == Count(s.samples, p) + if p == producer then 1 else 0)
  {
    var t := Append(s, trigger, producer, c, reading);
    forall p ensures CountOf(t.counts, p) == Count(t.samples, p)
             ensures Count(t.samples, p) == Count(s.samples, p) + if p == producer then 1 else 0
    {
      CountOneMore(s.samples, t.samples[|s.samples|], p);
    }
  }

  lemma {:induction false} StartedIsOk(intervalEnabled: bool, expiresAt: int, reading: int)
    ensures SessionOk(Started(intervalEnabled, expiresAt, reading))
  {
    var blank := Session([], NoCounts(), None, false, None, false, [], [], None, None, intervalEnabled, expiresAt, false, false);
    AppendCounts(blank, AtStart, Arm, None, reading);
  }

  lemma {:induction false} ObserveIsOk(s: Session, producer: Producer, c: Closure, reading: int)
    requires SessionOk(s) && producer !in {Arm, LayoutCommit, CommitAnchor}
    ensures SessionOk(Observe(s, producer, c, reading))
  {
    if Current(s, c) {
      var t := Append(s, OnPresentationFrame, producer, Some(c), reading);
      AppendCounts(s, OnPresentationFrame, producer, Some(c), reading);
      forall i | 0 <= i < |t.samples| ensures InPlace(t.samples, i) {
        if i < |s.samples| { assert InPlace(s.samples, i); }
      }
    }
  }

  lemma {:induction false} CommitIsOk(s: Session, c: Closure, reading: int, anchorReading: int)
    requires SessionOk(s) && s.subscribed
    ensures SessionOk(Commit(s, c, reading, anchorReading))
  {
    var committed := Append(s, OnDomCommit, LayoutCommit, Some(c), reading);
    AppendCounts(s, OnDomCommit, LayoutCommit, Some(c), reading);
    AppendCounts(committed.(current := Some(c)), OnPresentationFrame, CommitAnchor, Some(c), anchorReading);
    var t := Commit(s, c, reading, anchorReading);
    forall i | 0 <= i < |t.samples| ensures InPlace(t.samples, i) {
      if i < |s.samples| { assert InPlace(s.samples, i); }
    }
  }

  lemma {:induction false} ReactIsOk(s: Session, ev: Event)
    requires SessionOk(s)
    ensures SessionOk(React(s, ev))
  {
    match ev
    case Committed(c, reading, anchorReading) =>
      if s.subscribed { CommitIsOk(s, c, reading, anchorReading); }
    case AnimationEnded(k, _, reading) =>
      if k < |s.listeners| { ObserveIsOk(s, AnimationEnd, s.listeners[k], reading); }
    case Mutated(k, _, reading) =>
      if k < |s.observers| { ObserveIsOk(s, Settlement, s.observers[k], reading); }
    case Ticked(_, reading) =>
      if s.interval.Some? { ObserveIsOk(s, IntervalTick, s.interval.value, reading); }
    case Framed(reading) =>
      if s.frame.Some? { ObserveIsOk(s, FrameCallback, s.frame.value, reading); }
    case Expired(_) =>
    case Closed(_) =>
  }

  // ---------------------------------------------------------------- blocks

  /** After a layout commit every sample carries the commit time of the one before it. */
  predicate Uniform(samples: seq<Sample>) {
    forall i :: 1 < i < |samples| && samples[i].producer != LayoutCommit ==>
      samples[i].committedAt == samples[i - 1].committedAt
  }

  /** The samples of one layout transaction: one id, one commit time. */
  predicate IsBlock(b: seq<Sample>) {
    && |b| >= 2
    && b[0].producer == LayoutCommit && b[1].producer == CommitAnchor
    && (forall i :: 2 <= i < |b| ==> b[i].producer in {FrameCallback, IntervalTick, AnimationEnd, Settlement})
    && (forall i :: 0 <= i < |b| ==> b[i].transaction.Some? && b[i].transaction == b[0].transaction)
    && (forall i :: 0 <= i < |b| ==> b[i].committedAt == b[0].committedAt)
  }

  function Flatten(blocks: seq<seq<Sample>>): seq<Sample> {
    if |blocks| == 0 then [] else Flatten(blocks[..|blocks| - 1]) + blocks[|blocks| - 1]
  }

  /** One `arm` sample and then whole blocks. */
  ghost predicate IsLedger(samples: seq<Sample>, blocks: seq<seq<Sample>>) {
    && |samples| > 0 && samples[0].producer == Arm && samples[0].transaction.None?
    && samples[1..] == Flatten(blocks)
    && forall b :: b in blocks ==> IsBlock(b)
  }

  lemma {:induction false} FlattenOneMore(blocks: seq<seq<Sample>>, b: seq<Sample>)
    ensures Flatten(blocks + [b]) == Flatten(blocks) + b
  {
    assert (blocks + [b])[..|blocks|] == blocks;
  }

  /** A callback extends the last block. */
  lemma {:induction false} ExtendLastBlock(samples: seq<Sample>, blocks: seq<seq<Sample>>, x: Sample)
    requires IsLedger(samples, blocks) && |samples| > 1
    requires x.producer in {FrameCallback, IntervalTick, AnimationEnd, Settlement}
    requires x.transaction == samples[|samples| - 1].transaction
    requires x.committedAt == samples[|samples| - 1].committedAt
    ensures exists more :: IsLedger(samples + [x], more)
  {
    assert blocks != [];
    var n := |blocks| - 1;
    var last := blocks[n];
    assert last in blocks;
    assert blocks == blocks[..n] + [last];
    FlattenOneMore(blocks[..n], last);
    assert samples[|samples| - 1] == samples[1..][|samples| - 2] == last[|last| - 1];
    var longer := last + [x];
    assert IsBlock(longer);
    FlattenOneMore(blocks[..n], longer);
    assert (samples + [x])[1..] == Flatten(blocks[..n]) + longer;
    assert IsLedger(samples + [x], blocks[..n] + [longer]);
  }

  /** A commit opens a block. */
  lemma {:induction false} OpenBlock(samples: seq<Sample>, blocks: seq<seq<Sample>>, x: Sample, y: Sample)
    requires IsLedger(samples, blocks) && IsBlock([x, y])
    ensures exists more :: IsLedger(samples + [x] + [y], more)
  {
    FlattenOneMore(blocks, [x, y]);
    assert (samples + [x] + [y])[1..] == samples[1..] + [x, y];
    assert IsLedger(samples + [x] + [y], blocks + [[x, y]]);
  }

  /** The order and links between neighbours are the block structure. */
  lemma {:induction false} LedgerHasBlocks(samples: seq<Sample>)
    requires LedgerOk(samples) && Uniform(samples)
    ensures exists blocks :: IsLedger(samples, blocks)
    decreases |samples|
  {
    var n := |samples| - 1;
    assert InPlace(samples, n) && InPlace(samples, 0);
    if n == 0 {
      assert IsLedger(samples, []);
    } else if samples[n].producer == CommitAnchor {
      assert InPlace(samples, n - 1) && InPlace(samples, n - 2);
      PrefixIsOk(samples, n - 1);
      LedgerHasBlocks(samples[..n - 1]);
      var blocks :| IsLedger(samples[..n - 1], blocks);
      OpenBlock(samples[..n - 1], blocks, samples[n - 1], samples[n]);
      assert samples[..n - 1] + [samples[n - 1]] + [samples[n]] == samples;
    } else {
      assert InPlace(samples, n - 1);
      PrefixIsOk(samples, n);
      LedgerHasBlocks(samples[..n]);
      var blocks :| IsLedger(samples[..n], blocks);
      ExtendLastBlock(samples[..n], blocks, samples[n]);
      assert samples[..n] + [samples[n]] == samples;
    }
  }

  lemma PrefixIsOk(samples: seq<Sample>, k: nat)
    requires LedgerOk(samples) && 0 < k < |samples| && samples[k - 1].producer != LayoutCommit
    ensures LedgerOk(samples[..k])
  {
    forall i | 0 <= i < k ensures InPlace(samples[..k], i) {
      assert InPlace(samples, i);
    }
  }

  // ---------------------------------------------------------------- runs of one session

  function ReactAll(s: Session, events: seq<Event>): Session {
    if |events| == 0 then s else React(ReactAll(s, events[..|events| - 1]), events[|events| - 1])
  }

  /** The ledger's promises, told of the samples alone: one `arm` sample followed by whole blocks of one
      transaction and one commit time each, numbered and counted exactly. */
  ghost predicate WellTold(s: Session) {
    && (exists blocks :: IsLedger(s.samples, blocks))
    && (forall i :: 0 <= i < |s.samples| ==> s.samples[i].sequence == i)
    && (forall p :: CountOf(s.counts, p) == Count(s.samples, p))
  }

  lemma {:induction false} OkIsWellTold(s: Session)
    requires SessionOk(s) && Uniform(s.samples)
    ensures WellTold(s)
  {
    LedgerHasBlocks(s.samples);
    forall i | 0 <= i < |s.samples| ensures s.samples[i].sequence == i {
      assert InPlace(s.samples, i);
    }
  }

  lemma {:induction false} ReactAllIsOk(s: Session, events: seq<Event>)
    requires SessionOk(s)
    ensures SessionOk(ReactAll(s, events))
  {
    if |events| == 0 {
    } else {
      ReactAllIsOk(s, events[..|events| - 1]);
      ReactIsOk(ReactAll(s, events[..|events| - 1]), events[|events| - 1]);
    }
  }

  /** Once ended, a session's samples, end time and timeout flag are final, whatever fires later. */
  lemma {:induction false} EndedIsFinal(s: Session, events: seq<Event>)
    requires SessionOk(s) && s.endedAt.Some?
    ensures var t := ReactAll(s, events);
      t.samples == s.samples && t.counts == s.counts && t.endedAt == s.endedAt && t.timedOut == s.timedOut
  {
    if |events| == 0 {
    } else {
      EndedIsFinal(s, events[..|events| - 1]);
      ReactAllIsOk(s, events[..|events| - 1]);
    }
  }

  /** What a finished session leaves behind: every listener and observer but those of its last commit. */
  lemma {:induction false} LeftOnDocument(intervalEnabled: bool, expiresAt: int, reading: int, events: seq<Event>)
    ensures var s := ReactAll(Started(intervalEnabled, expiresAt, reading), events);
      var commits := CountOf(s.counts, LayoutCommit);
      |s.listeners| == |s.observers| == if s.endedAt.None? then commits else if commits == 0 then 0 else commits - 1
  {
    StartedIsOk(intervalEnabled, expiresAt, reading);
    ReactAllIsOk(Started(intervalEnabled, expiresAt, reading), events);
  }

  /** Two commits and then a close: the first commit's listener and observer stay on the document. */
  lemma CloseLeavesOneBehind()
    ensures var c, d := Closure("layout-1", 10), Closure("layout-2", 20);
      var s := ReactAll(Started(true, 5000, 0), [Committed(c, 0, 0), Committed(d, 0, 0), Closed(30)]);
      s.endedAt == Some(30) && s.listeners == [c] && s.observers == [c]
  {
    var c, d := Closure("layout-1", 10), Closure("layout-2", 20);
    var e1, e2, e3 := Committed(c, 0, 0), Committed(d, 0, 0), Closed(30);
    var start := Started(true, 5000, 0);
    assert [e1, e2, e3][..2] == [e1, e2] && [e1, e2][..1] == [e1] && [e1][..0] == [];
    assert ReactAll(start, []) == start;
    var one := React(start, e1);
    assert ReactAll(start, [e1]) == one && one.listeners == [c] && one.observers == [c];
    var two := React(one, e2);
    assert ReactAll(start, [e1, e2]) == two && two.listeners == [c, d] && two.observers == [c, d];
    assert [c, d][..1] == [c];
  }

  // ---------------------------------------------------------------- commit times inside a block

  /** An earlier commit of the transaction now current, at another time, has left a callback attached. */
  predicate HasStaleTwin(s: Session) {
    s.endedAt.None? && s.current.Some? &&
    ((exists k :: 0 <= k < |s.listeners| && Stale(s.current.value, s.listeners[k]))
     || (exists k :: 0 <= k < |s.observers| && Stale(s.current.value, s.observers[k])))
  }

  predicate Stale(current: Closure, c: Closure) {
    c.transaction == current.transaction && c.committedAt != current.committedAt
  }

  /** The interval, the frame callback and the last sample belong to the current commit. */
  ghost predicate InStep(s: Session) {
    && SessionOk(s)
    && (s.interval.Some? ==> s.interval == s.current)
    && (s.frame.Some? ==> s.frame == s.current)
    && (s.current.Some? ==> s.samples[|s.samples| - 1].committedAt == Some(s.current.value.committedAt))
  }

  lemma {:induction false} TwinBreaks(s: Session)
    requires InStep(s) && HasStaleTwin(s)
    ensures exists ev :: !Uniform(React(s, ev).samples)
  {
    var n := |s.samples|;
    if exists k :: 0 <= k < |s.listeners| && Stale(s.current.value, s.listeners[k]) {
      var k :| 0 <= k < |s.listeners| && Stale(s.current.value, s.listeners[k]);
      var t := React(s, AnimationEnded(k, true, 0));
      assert t.samples[n].committedAt != t.samples[n - 1].committedAt;
    } else {
      var k :| 0 <= k < |s.observers| && Stale(s.current.value, s.observers[k]);
      var t := React(s, Mutated(k, false, 0));
      assert t.samples[n].committedAt != t.samples[n - 1].committedAt;
    }
  }

  lemma {:induction false} ObserveIsUniform(s: Session, producer: Producer, c: Closure, reading: int)
    requires InStep(s) && Uniform(s.samples) && producer !in {Arm, LayoutCommit, CommitAnchor}
    requires s.current.Some? ==> !Stale(s.current.value, c)
    ensures InStep(Observe(s, producer, c, reading)) && Uniform(Observe(s, producer, c, reading).samples)
  {
    ObserveIsOk(s, producer, c, reading);
  }

  lemma {:induction false} NoTwinIsUniform(s: Session, ev: Event)
    requires InStep(s) && Uniform(s.samples) && !HasStaleTwin(s)
    ensures InStep(React(s, ev)) && Uniform(React(s, ev).samples)
  {
    match ev
    case Committed(c, reading, anchorReading) =>
      if s.subscribed { CommitIsOk(s, c, reading, anchorReading); }
    case AnimationEnded(k, _, reading) =>
      if k < |s.listeners| && s.current.Some? { ObserveIsUniform(s, AnimationEnd, s.listeners[k], reading); }
    case Mutated(k, _, reading) =>
      if k < |s.observers| && s.current.Some? { ObserveIsUniform(s, Settlement, s.observers[k], reading); }
    case Ticked(_, reading) =>
      if s.interval.Some? { ObserveIsUniform(s, IntervalTick, s.interval.value, reading); }
    case Framed(reading) =>
      if s.frame.Some? { ObserveIsUniform(s, FrameCallback, s.frame.value, reading); }
    case Expired(_) =>
      ReactIsOk(s, ev);
    case Closed(_) =>
      ReactIsOk(s, ev);
  }

  /** No event makes an uneven ledger even again, and as long as it is even the session is in step. */
  lemma {:induction false} UniformStepIsInStep(s: Session, ev: Event)
    requires InStep(s) && Uniform(React(s, ev).samples)
    ensures InStep(React(s, ev))
  {
    var t := React(s, ev);
    ReactIsOk(s, ev);
    var n := |s.samples|;
    if |t.samples| > n > 1 && t.samples[n].producer != LayoutCommit {
      assert t.samples[n].committedAt == t.samples[n - 1].committedAt;
    }
  }

  lemma {:induction false} ObserveOnlyGrows(s: Session, producer: Producer, c: Closure, reading: int)
    ensures s.samples <= Observe(s, producer, c, reading).samples
  {
  }

  lemma {:induction false} SamplesOnlyGrow(s: Session, ev: Event)
    ensures s.samples <= React(s, ev).samples
  {
    match ev
    case Committed(_, _, _) =>
    case AnimationEnded(k, _, reading) =>
      if k < |s.listeners| { ObserveOnlyGrows(s, AnimationEnd, s.listeners[k], reading); }
    case Mutated(k, _, reading) =>
      if k < |s.observers| { ObserveOnlyGrows(s, Settlement, s.observers[k], reading); }
    case Ticked(_, reading) =>
      if s.interval.Some? { ObserveOnlyGrows(s, IntervalTick, s.interval.value, reading); }
    case Framed(reading) =>
      if s.frame.Some? { ObserveOnlyGrows(s, FrameCallback, s.frame.value, reading); }
    case Expired(_) =>
    case Closed(_) =>
  }

  /** Every session that is reached with an even ledger is in step. */
  lemma {:induction false} UniformRunIsInStep(intervalEnabled: bool, expiresAt: int, reading: int, events: seq<Event>)
    requires Uniform(ReactAll(Started(intervalEnabled, expiresAt, reading), events).samples)
    ensures InStep(ReactAll(Started(intervalEnabled, expiresAt, reading), events))
  {
    var start := Started(intervalEnabled, expiresAt, reading);
    if |events| == 0 {
      StartedIsOk(intervalEnabled, expiresAt, reading);
    } else {
      var s := ReactAll(start, events[..|events| - 1]);
      SamplesOnlyGrow(s, events[|events| - 1]);
      assert forall i :: 0 <= i < |s.samples| ==> s.samples[i] == React(s, events[|events| - 1]).samples[i];
      UniformRunIsInStep(intervalEnabled, expiresAt, reading, events[..|events| - 1]);
      UniformStepIsInStep(s, events[|events| - 1]);
    }
  }

  /** What the guards rely on: they compare transaction ids only, so in every session reached with an even
      ledger the next event, whichever it is, keeps it even exactly if no callback of the same transaction
      with another commit time is attached. */
  lemma {:induction false} UniformUntilTwin(intervalEnabled: bool, expiresAt: int, reading: int, events: seq<Event>)
    requires Uniform(ReactAll(Started(intervalEnabled, expiresAt, reading), events).samples)
    ensures var s := ReactAll(Started(intervalEnabled, expiresAt, reading), events);
      (forall ev :: Uniform(React(s, ev).samples)) <==> !HasStaleTwin(s)
  {
    var s := ReactAll(Started(intervalEnabled, expiresAt, reading), events);
    UniformRunIsInStep(intervalEnabled, expiresAt, reading, events);
    if HasStaleTwin(s) {
      TwinBreaks(s);
    } else {
      forall ev ensures Uniform(React(s, ev).samples) { NoTwinIsUniform(s, ev); }
    }
  }

  /** No transaction is committed at two different times. */
  predicate OneTimeEach(events: seq<Event>) {
    forall i, j :: 0 <= i < j < |events| && events[i].Committed? && events[j].Committed? ==>
      (events[i].c.transaction == events[j].c.transaction ==> events[i].c == events[j].c)
  }

  predicate CommittedIn(events: seq<Event>, c: Closure) {
    exists i :: 0 <= i < |events| && events[i].Committed? && events[i].c == c
  }

  /** Everything attached comes from a commit of the run. */
  ghost predicate FromCommits(s: Session, events: seq<Event>) {
    && (s.current.Some? ==> CommittedIn(events, s.current.value))
    && (forall c :: c in s.listeners ==> CommittedIn(events, c))
    && (forall c :: c in s.observers ==> CommittedIn(events, c))
  }

  lemma {:induction false} CommittedInMore(events: seq<Event>, ev: Event, c: Closure)
    requires CommittedIn(events, c) || (ev.Committed? && ev.c == c)
    ensures CommittedIn(events + [ev], c)
  {
    if CommittedIn(events, c) {
      var i :| 0 <= i < |events| && events[i].Committed? && events[i].c == c;
      assert (events + [ev])[i] == events[i];
    } else {
      assert (events + [ev])[|events|] == ev;
    }
  }

  /** `t` holds what `s` held, and `more`. */
  predicate Attached(s: Session, t: Session, more: seq<Closure>) {
    && (t.current.Some? ==> t.current == s.current || (exists c :: c in more && t.current == Some(c)))
    && (forall c :: c in t.listeners ==> c in s.listeners || c in more)
    && (forall c :: c in t.observers ==> c in s.observers || c in more)
  }

  lemma {:induction false} CommitAttaches(s: Session, c: Closure, reading: int, anchorReading: int)
    ensures Attached(s, Commit(s, c, reading, anchorReading), [c])
  {
    var t := Commit(s, c, reading, anchorReading);
    assert t.current == Some(c) && t.listeners == s.listeners + [c] && t.observers == s.observers + [c];
  }

  lemma {:induction false} FinishAttaches(s: Session, timedOut: bool, now: int)
    ensures Attached(s, Finish(s, timedOut, now), [])
  {
    var t := Finish(s, timedOut, now);
    assert t.listeners <= s.listeners && t.observers <= s.observers;
  }

  predicate SameAttached(s: Session, t: Session) {
    t.current == s.current && t.listeners == s.listeners && t.observers == s.observers
  }

  lemma {:induction false} ObserveAttachesNothing(s: Session, producer: Producer, c: Closure, reading: int)
    ensures SameAttached(s, Observe(s, producer, c, reading))
  {
  }

  /** One event attaches at most the closure of its own commit. */
  lemma {:induction false} AttachedBy(s: Session, ev: Event)
    ensures Attached(s, React(s, ev), if ev.Committed? then [ev.c] else [])
  {
    match ev
    case Committed(c, reading, anchorReading) => CommitAttaches(s, c, reading, anchorReading);
    case Expired(now) => FinishAttaches(s, true, now);
    case Closed(now) => FinishAttaches(s, false, now);
    case AnimationEnded(k, _, reading) =>
      if k < |s.listeners| { ObserveAttachesNothing(s, AnimationEnd, s.listeners[k], reading); }
    case Mutated(k, _, reading) =>
      if k < |s.observers| { ObserveAttachesNothing(s, Settlement, s.observers[k], reading); }
    case Ticked(_, reading) =>
      if s.interval.Some? { ObserveAttachesNothing(s, IntervalTick, s.interval.value, reading); }
    case Framed(reading) =>
      if s.frame.Some? { ObserveAttachesNothing(s, FrameCallback, s.frame.value, reading); }
  }

  lemma {:induction false} StillFromCommits(s: Session, events: seq<Event>, ev: Event)
    requires FromCommits(s, events)
    ensures FromCommits(React(s, ev), events + [ev])
  {
    AttachedBy(s, ev);
    var t := React(s, ev);
    if t.current.Some? { CommittedInMore(events, ev, t.current.value); }
    forall c | c in t.listeners || c in t.observers ensures CommittedIn(events + [ev], c) {
      CommittedInMore(events, ev, c);
    }
  }

  /** So through every run that never commits a transaction again at another time, commit times are uniform. */
  lemma {:induction false} OneTimeEachIsUniform(
    intervalEnabled: bool, expiresAt: int, reading: int, events: seq<Event>)
    requires OneTimeEach(events)
    ensures var s := ReactAll(Started(intervalEnabled, expiresAt, reading), events);
      InStep(s) && Uniform(s.samples) && FromCommits(s, events)
  {
    var start := Started(intervalEnabled, expiresAt, reading);
    if |events| == 0 {
      StartedIsOk(intervalEnabled, expiresAt, reading);
    } else {
      var before, ev := events[..|events| - 1], events[|events| - 1];
      OneTimeEachIsUniform(intervalEnabled, expiresAt, reading, before);
      var s := ReactAll(start, before);
      NoTwinWhenOneTimeEach(s, before);
      NoTwinIsUniform(s, ev);
      StillFromCommits(s, before, ev);
      assert before + [ev] == events;
    }
  }

  lemma {:induction false} NoTwinWhenOneTimeEach(s: Session, events: seq<Event>)
    requires OneTimeEach(events) && FromCommits(s, events)
    ensures !HasStaleTwin(s)
  {
    if s.current.Some? {
      forall c | CommittedIn(events, c) ensures !Stale(s.current.value, c) {
        var i :| 0 <= i < |events| && events[i].Committed? && events[i].c == c;
        var j :| 0 <= j < |events| && events[j].Committed? && events[j].c == s.current.value;
      }
    }
  }
}
