/** Starting a project's daemons when it opens (src/commands/catalogDaemon.ts), so that a crash at any
    moment leaves a record by which the next opening can reap what was left running. */
module DaemonAutostart {
  import opened JsValues

  datatype Entry = Entry(name: string, cmd: string)

  datatype Process = Process(pid: nat, cmd: string)

  /** What the project's policy holds on disk. */
  datatype Policy = Policy(autostart: Option<map<string, bool>>, pids: map<string, Process>)

  datatype Effect =
    | Reaped(processes: set<Process>)
    | Persisted(pids: map<string, Process>)
    | Launched(name: string, process: Process)

  // ---------------------------------------------------------------- the declarations

  function Position(entries: seq<Entry>, name: string): nat {
    if |entries| == 0 || entries[0].name == name then 0 else 1 + Position(entries[1..], name)
  }

  /** `parseProcfile`: a later line of the same name replaces the command, in place. */
  function FromLines(lines: seq<Entry>): seq<Entry> {
    if |lines| == 0 then []
    else
      var before, last := FromLines(lines[..|lines| - 1]), lines[|lines| - 1];
      var k := Position(before, last.name);
      if k < |before| then before[k := last] else before + [last]
  }

  predicate DistinctNames(entries: seq<Entry>) {
    forall i, j :: 0 <= i < j < |entries| ==> entries[i].name != entries[j].name
  }

  lemma {:induction false} PositionIs(entries: seq<Entry>, name: string)
    ensures var k := Position(entries, name);
      && k <= |entries| && (k < |entries| ==> entries[k].name == name)
      && (k == |entries| ==> forall i :: 0 <= i < |entries| ==> entries[i].name != name)
  {
    if |entries| == 0 || entries[0].name == name {
    } else {
      PositionIs(entries[1..], name);
      assert forall i :: 1 <= i < |entries| ==> entries[i] == entries[1..][i - 1];
    }
  }

  /** A Procfile never yields one name twice. */
  lemma {:induction false} NamesAreDistinct(lines: seq<Entry>)
    ensures DistinctNames(FromLines(lines))
  {
    if |lines| == 0 {
    } else {
      NamesAreDistinct(lines[..|lines| - 1]);
      PositionIs(FromLines(lines[..|lines| - 1]), lines[|lines| - 1].name);
    }
  }

  /** Line `k` is the last that declares its name. */
  predicate LastOfName(lines: seq<Entry>, k: nat) {
    k < |lines| && forall j :: k < j < |lines| ==> lines[j].name != lines[k].name
  }

  lemma {:induction false} LastOneMore(lines: seq<Entry>, e: Entry)
    requires |lines| > 0
    ensures var n := |lines| - 1;
      (exists k: nat :: LastOfName(lines, k) && lines[k] == e) <==>
      e == lines[n] || (e.name != lines[n].name && exists k: nat :: LastOfName(lines[..n], k) && lines[..n][k] == e)
  {
    var n := |lines| - 1;
    forall k: nat | k < n && lines[k].name != lines[n].name ensures LastOfName(lines, k) <==> LastOfName(lines[..n], k) {
      assert forall j :: 0 <= j < n ==> lines[..n][j] == lines[j];
    }
    assert LastOfName(lines, n);
  }

  /** What is in a list with distinct names when an entry took the place of its name, or the end. */
  lemma {:induction false} Replaced(before: seq<Entry>, k: nat, last: Entry, e: Entry)
    requires DistinctNames(before) && k <= |before| && (k < |before| ==> before[k].name == last.name)
    requires k == |before| ==> forall i :: 0 <= i < |before| ==> before[i].name != last.name
    ensures e in (if k < |before| then before[k := last] else before + [last]) <==>
            e == last || (e in before && e.name != last.name)
  {
    var after := if k < |before| then before[k := last] else before + [last];
    assert after[k] == last;
    if e in before && e.name != last.name {
      var i :| 0 <= i < |before| && before[i] == e;
      assert after[i] == e;
    }
    if e in after && e != last {
      var i :| 0 <= i < |after| && after[i] == e;
      assert before[i] == e && i != k;
    }
  }

  /** A name gets the command of the last line that declares it. */
  lemma {:induction false} LastLineWins(lines: seq<Entry>, e: Entry)
    ensures e in FromLines(lines) <==> exists k: nat :: LastOfName(lines, k) && lines[k] == e
  {
    if |lines| == 0 {
    } else {
      var before, last := FromLines(lines[..|lines| - 1]), lines[|lines| - 1];
      LastLineWins(lines[..|lines| - 1], e);
      LastOneMore(lines, e);
      NamesAreDistinct(lines[..|lines| - 1]);
      PositionIs(before, last.name);
      Replaced(before, Position(before, last.name), last, e);
    }
  }

  /** `policy.autostart?.[name]` is truthy. */
  predicate Allowed(autostart: Option<map<string, bool>>, name: string) {
    autostart.Some? &&
    if name in autostart.value then autostart.value[name] else name in INHERITED_NAMES
  }

  // ---------------------------------------------------------------- one opening

  /** What one start writes: the daemon runs, then the table that names it is persisted. */
  function StartEffects(pids: map<string, Process>, e: Entry, pid: nat): seq<Effect> {
    [Launched(e.name, Process(pid, e.cmd)), Persisted(pids[e.name := Process(pid, e.cmd)])]
  }

  function AutostartEffects(
    autostart: Option<map<string, bool>>, pids: map<string, Process>, entries: seq<Entry>, spawn: Entry -> nat): seq<Effect>
    decreases |entries|
  {
    if |entries| == 0 then []
    else
      var e := entries[0];
      if Allowed(autostart, e.name) then
        StartEffects(pids, e, spawn(e))
        + AutostartEffects(autostart, pids[e.name := Process(spawn(e), e.cmd)], entries[1..], spawn)
      else AutostartEffects(autostart, pids, entries[1..], spawn)
  }

  /** Every effect of an opening that nothing cuts short. A failing host call ends it early, and so does a
      crash: what really happens is always a prefix of this. */
  function Effects(policy: Policy, entries: seq<Entry>, spawn: Entry -> nat): seq<Effect> {
    if policy.pids == map[] then AutostartEffects(policy.autostart, map[], entries, spawn)
    else [Reaped(policy.pids.Values), Persisted(map[])] + AutostartEffects(policy.autostart, map[], entries, spawn)
  }

  /** The table on disk after these effects. */
  function OnDisk(pids: map<string, Process>, log: seq<Effect>): map<string, Process> {
    if |log| == 0 then pids
    else if log[|log| - 1].Persisted? then log[|log| - 1].pids
    else OnDisk(pids, log[..|log| - 1])
  }

  class Daemons {
    var policy: Policy
    ghost var log: seq<Effect>
    var budget: nat                    // host calls that still succeed

    constructor (policy: Policy, budget: nat)
      ensures this.policy == policy && this.budget == budget && log == []
    {
      this.policy, this.budget, log := policy, budget, [];
    }

    /** One call to the host: it throws when the budget is used up, and then has no effect. */
    method Call(effect: Effect) returns (ok: bool)
      modifies this`log, this`budget
      ensures ok == (old(budget) > 0)
      ensures ok ==> log == old(log) + [effect] && budget == old(budget) - 1
      ensures !ok ==> log == old(log) && budget == 0
    {
      ok := budget > 0;
      if ok {
        log := log + [effect];
        budget := budget - 1;
      }
    }

    /** `startOne`. */
    method StartOne(e: Entry, spawn: Entry -> nat) returns (ok: bool)
      modifies this
      ensures ok == (old(budget) >= 2) && budget == (if ok then old(budget) - 2 else 0)
      ensures log == old(log) + Cut(StartEffects(old(policy).pids, e, spawn(e)), old(budget))
      ensures ok ==> policy == old(policy).(pids := old(policy).pids[e.name := Process(spawn(e), e.cmd)])
    {
      var process := Process(spawn(e), e.cmd);
      ok := Call(Launched(e.name, process));
      if !ok { return; }
      policy := policy.(pids := policy.pids[e.name := process]);
      ok := Call(Persisted(policy.pids));
    }

    /** `daemonOnProjectOpen`. */
    method OnProjectOpen(entries: seq<Entry>, spawn: Entry -> nat)
      requires log == []
      modifies this
      ensures log == Cut(Effects(old(policy), entries, spawn), old(budget))
    {
      ghost var all, start := Effects(policy, entries, spawn), budget;
      ghost var opening: seq<Effect> := [];
      if policy.pids != map[] {
        opening := [Reaped(policy.pids.Values), Persisted(map[])];
        var ok := Call(Reaped(policy.pids.Values));
        if !ok { return; }
        policy := policy.(pids := map[]);
        ok := Call(Persisted(policy.pids));
        if !ok { return; }
      }
      assert log == opening && budget == start - |opening|;
      var i := 0;
      while i < |entries|
        invariant 0 <= i <= |entries| && |log| + budget == start
        invariant all == log + AutostartEffects(policy.autostart, policy.pids, entries[i..], spawn)
      {
        assert entries[i..][1..] == entries[i + 1..] && entries[i..][0] == entries[i];
        if Allowed(policy.autostart, entries[i].name) {
          ghost var before, left, pids := log, budget, policy.pids;
          var ok := StartOne(entries[i], spawn);
          if !ok {
            CutStart(before, StartEffects(pids, entries[i], spawn(entries[i])),
                     AutostartEffects(policy.autostart, pids[entries[i].name := Process(spawn(entries[i]), entries[i].cmd)],
                                      entries[i + 1..], spawn),
                     left);
            return;
          }
        }
        i := i + 1;
      }
      assert all == log;
    }
  }

  /** The first `n` effects, or all of them. */
  function Cut(effects: seq<Effect>, n: nat): seq<Effect> {
    if n < |effects| then effects[..n] else effects
  }

  lemma CutStart(before: seq<Effect>, start: seq<Effect>, rest: seq<Effect>, left: nat)
    requires left < |start|
    ensures Cut(before + (start + rest), |before| + left) == before + Cut(start, left)
  {
  }

  // ---------------------------------------------------------------- a crash at any point

  lemma {:induction false} OnDiskAfter(pids: map<string, Process>, a: seq<Effect>, b: seq<Effect>)
    ensures OnDisk(pids, a + b) == OnDisk(OnDisk(pids, a), b)
  {
    if |b| == 0 {
      assert a + b == a;
    } else {
      assert (a + b)[..|a + b| - 1] == a + b[..|b| - 1];
      OnDiskAfter(pids, a, b[..|b| - 1]);
    }
  }

  predicate NamesOne(entries: seq<Entry>, name: string) {
    exists i :: 0 <= i < |entries| && entries[i].name == name
  }

  /** The daemon launched at `log[j]` is in the table on disk, or its start had only just returned. */
  predicate IsRecorded(pids: map<string, Process>, log: seq<Effect>, j: nat)
    requires j < |log|
  {
    log[j].Launched? ==>
      j == |log| - 1 || (log[j].name in OnDisk(pids, log) && OnDisk(pids, log)[log[j].name] == log[j].process)
  }

  predicate SameFor(a: map<string, Process>, b: map<string, Process>, name: string) {
    (name in a <==> name in b) && (name in a ==> a[name] == b[name])
  }

  /** What a start recorded stays on record while the later ones leave its name alone. */
  lemma {:induction false} RecordedAfterStart(pids: map<string, Process>, e: Entry, pid: nat, tail: seq<Effect>)
    requires var next := pids[e.name := Process(pid, e.cmd)];
      && (forall j :: 0 <= j < |tail| ==> IsRecorded(next, tail, j) && !tail[j].Reaped?)
      && SameFor(OnDisk(next, tail), next, e.name)
    ensures var log := StartEffects(pids, e, pid) + tail;
      && (forall j :: 0 <= j < |log| ==> IsRecorded(pids, log, j) && !log[j].Reaped?)
      && OnDisk(pids, log) == OnDisk(pids[e.name := Process(pid, e.cmd)], tail)
  {
    var next, log := pids[e.name := Process(pid, e.cmd)], StartEffects(pids, e, pid) + tail;
    StartThenRest(pids, e, pid, tail);
    forall j | 0 <= j < |log| ensures IsRecorded(pids, log, j) && !log[j].Reaped? {
      if j >= 2 { assert log[j] == tail[j - 2] && IsRecorded(next, tail, j - 2); }
    }
  }

  lemma {:induction false} NamedWithFirst(entries: seq<Entry>)
    requires |entries| > 0
    ensures forall name :: NamesOne(entries, name) <==> entries[0].name == name || NamesOne(entries[1..], name)
    ensures DistinctNames(entries) ==> !NamesOne(entries[1..], entries[0].name)
  {
    forall name ensures NamesOne(entries, name) <==> entries[0].name == name || NamesOne(entries[1..], name) {
      if NamesOne(entries[1..], name) {
        var i :| 0 <= i < |entries[1..]| && entries[1..][i].name == name;
        assert entries[i + 1].name == name;
      }
      if NamesOne(entries, name) {
        var i :| 0 <= i < |entries| && entries[i].name == name;
        if i > 0 { assert entries[1..][i - 1].name == name; }
      }
    }
  }

  /** Everything started is recorded or the newest, and was allowed and declared; other records are as they were. */
  ghost predicate WellStarted(
    autostart: Option<map<string, bool>>, pids: map<string, Process>, entries: seq<Entry>, log: seq<Effect>)
  {
    && (forall j :: 0 <= j < |log| ==> IsRecorded(pids, log, j) && !log[j].Reaped?)
    && (forall j :: 0 <= j < |log| && log[j].Launched? ==> Allowed(autostart, log[j].name) && NamesOne(entries, log[j].name))
    && (forall name :: !NamesOne(entries, name) ==> SameFor(OnDisk(pids, log), pids, name))
  }

  lemma {:induction false} StartedBefore(
    autostart: Option<map<string, bool>>, pids: map<string, Process>, entries: seq<Entry>, pid: nat, tail: seq<Effect>)
    requires |entries| > 0 && DistinctNames(entries) && Allowed(autostart, entries[0].name)
    requires WellStarted(autostart, pids[entries[0].name := Process(pid, entries[0].cmd)], entries[1..], tail)
    ensures WellStarted(autostart, pids, entries, StartEffects(pids, entries[0], pid) + tail)
  {
    var e := entries[0];
    var log := StartEffects(pids, e, pid) + tail;
    NamedWithFirst(entries);
    RecordedAfterStart(pids, e, pid, tail);
    forall j | 0 <= j < |log| && log[j].Launched?
      ensures Allowed(autostart, log[j].name) && NamesOne(entries, log[j].name)
    {
      if j >= 2 { assert log[j] == tail[j - 2]; }
    }
  }

  /** A start cut short: the daemon runs, or not even that. */
  lemma {:induction false} StartCutShort(
    autostart: Option<map<string, bool>>, pids: map<string, Process>, entries: seq<Entry>, pid: nat, n: nat)
    requires |entries| > 0 && Allowed(autostart, entries[0].name) && n < 2
    ensures WellStarted(autostart, pids, entries, StartEffects(pids, entries[0], pid)[..n])
  {
    if n == 1 { assert StartEffects(pids, entries[0], pid)[..1] == [StartEffects(pids, entries[0], pid)[0]]; }
  }

  /** Cut anywhere, the starts have recorded every daemon but perhaps the newest, started only what is
      allowed, and left the records of other names alone. */
  lemma {:induction false} StartsAreRecorded(
    autostart: Option<map<string, bool>>, pids: map<string, Process>, entries: seq<Entry>, spawn: Entry -> nat, n: nat)
    requires DistinctNames(entries) && n <= |AutostartEffects(autostart, pids, entries, spawn)|
    ensures WellStarted(autostart, pids, entries, AutostartEffects(autostart, pids, entries, spawn)[..n])
    decreases |entries|
  {
    var log := AutostartEffects(autostart, pids, entries, spawn)[..n];
    if |entries| == 0 {
    } else {
      var e, rest := entries[0], entries[1..];
      var next := pids[e.name := Process(spawn(e), e.cmd)];
      if !Allowed(autostart, e.name) {
        StartsAreRecorded(autostart, pids, rest, spawn, n);
        NamedWithFirst(entries);
      } else if n < 2 {
        StartCutShort(autostart, pids, entries, spawn(e), n);
        assert log == StartEffects(pids, e, spawn(e))[..n];
      } else {
        StartsAreRecorded(autostart, next, rest, spawn, n - 2);
        var tail := AutostartEffects(autostart, next, rest, spawn)[..n - 2];
        StartedBefore(autostart, pids, entries, spawn(e), tail);
        assert log == StartEffects(pids, e, spawn(e)) + tail;
      }
    }
  }

  lemma {:induction false} StartThenRest(pids: map<string, Process>, e: Entry, pid: nat, tail: seq<Effect>)
    ensures OnDisk(pids, StartEffects(pids, e, pid) + tail) == OnDisk(pids[e.name := Process(pid, e.cmd)], tail)
  {
    OnDiskAfter(pids, StartEffects(pids, e, pid), tail);
  }

  /** An opening cut short anywhere: every daemon it started is recorded or the newest, none was started
      without permission, and before the first start everything recorded earlier was reaped. */
  lemma {:induction false} OpeningIsSafe(policy: Policy, entries: seq<Entry>, spawn: Entry -> nat, n: nat)
    requires DistinctNames(entries)
    ensures var log := Cut(Effects(policy, entries, spawn), n);
      && (forall j :: 0 <= j < |log| ==> IsRecorded(policy.pids, log, j))
      && (forall j :: 0 <= j < |log| && log[j].Launched? ==> Allowed(policy.autostart, log[j].name))
      && (|log| == 0 ==> OnDisk(policy.pids, log) == policy.pids)
      && (|log| > 0 && policy.pids != map[] ==> log[0] == Reaped(policy.pids.Values))
  {
    var all := Effects(policy, entries, spawn);
    var log := Cut(all, n);
    var starts := AutostartEffects(policy.autostart, map[], entries, spawn);
    if policy.pids == map[] {
      StartsAreRecorded(policy.autostart, map[], entries, spawn, |log|);
      assert log == starts[..|log|];
    } else if |log| >= 2 {
      var opening := [Reaped(policy.pids.Values), Persisted(map[])];
      StartsAreRecorded(policy.autostart, map[], entries, spawn, |log| - 2);
      var tail := starts[..|log| - 2];
      assert log == opening + tail;
      OnDiskAfter(policy.pids, opening, tail);
      assert OnDisk(policy.pids, opening) == map[];
      forall j | 0 <= j < |log| ensures IsRecorded(policy.pids, log, j)
        ensures log[j].Launched? ==> Allowed(policy.autostart, log[j].name)
      {
        if j >= 2 { assert log[j] == tail[j - 2] && IsRecorded(map[], tail, j - 2); }
      }
    }
  }

  // ---------------------------------------------------------------- one opening after another

  datatype Opening = Opening(entries: seq<Entry>, spawn: Entry -> nat, cut: nat)

  /** The table on disk when opening number `k` begins. */
  function DiskAt(policy: Policy, openings: seq<Opening>, k: nat): map<string, Process>
    requires k <= |openings|
    decreases k, 0
  {
    if k == 0 then policy.pids else OnDisk(DiskAt(policy, openings, k - 1), LogOf(policy, openings, k - 1))
  }

  /** What opening number `k` really did before it was cut short. */
  function LogOf(policy: Policy, openings: seq<Opening>, k: nat): seq<Effect>
    requires k < |openings|
    decreases k, 1
  {
    Cut(Effects(policy.(pids := DiskAt(policy, openings, k)), openings[k].entries, openings[k].spawn), openings[k].cut)
  }

  /** Opening `k` reaps this process first of all. */
  predicate Reaps(log: seq<Effect>, process: Process) {
    |log| > 0 && log[0].Reaped? && process in log[0].processes
  }

  predicate ReapsIn(policy: Policy, openings: seq<Opening>, i: nat, process: Process) {
    i < |openings| && Reaps(LogOf(policy, openings, i), process)
  }

  /** However many openings crash, and wherever: at any time each daemon they started has been reaped by a
      later opening, or is still on record, or was the very last thing its own opening did. */
  lemma {:induction false} NoDaemonIsLost(policy: Policy, openings: seq<Opening>, k: nat, j: nat, m: nat)
    requires k < m <= |openings| && forall i :: 0 <= i < |openings| ==> DistinctNames(openings[i].entries)
    requires j < |LogOf(policy, openings, k)| && LogOf(policy, openings, k)[j].Launched?
    ensures var e := LogOf(policy, openings, k)[j];
      || j == |LogOf(policy, openings, k)| - 1
      || (exists i: nat :: k < i < m && ReapsIn(policy, openings, i, e.process))
      || (e.name in DiskAt(policy, openings, m) && DiskAt(policy, openings, m)[e.name] == e.process)
    decreases m
  {
    var e := LogOf(policy, openings, k)[j];
    var before := policy.(pids := DiskAt(policy, openings, m - 1));
    OpeningIsSafe(before, openings[m - 1].entries, openings[m - 1].spawn, openings[m - 1].cut);
    if m == k + 1 {
      assert IsRecorded(DiskAt(policy, openings, k), LogOf(policy, openings, k), j);
    } else {
      NoDaemonIsLost(policy, openings, k, j, m - 1);
      var log := LogOf(policy, openings, m - 1);
      if e.name in before.pids && before.pids[e.name] == e.process && |log| > 0 {
        assert before.pids != map[] && e.process in before.pids.Values;
        assert ReapsIn(policy, openings, m - 1, e.process);
      }
      assert DiskAt(policy, openings, m) == OnDisk(before.pids, log);
    }
  }

  /** With one name declared twice the first daemon drops out of the table while it runs. */
  lemma TwiceDeclaredIsLost()
    ensures var entries, spawn := [Entry("web", "a"), Entry("web", "b")], (e: Entry) => if e.cmd == "a" then 1 else 2;
      var log := Effects(Policy(Some(map["web" := true]), map[]), entries, spawn);
      && |log| == 4 && log[0] == Launched("web", Process(1, "a"))
      && OnDisk(map[], log) == map["web" := Process(2, "b")]
  {
    var entries, spawn := [Entry("web", "a"), Entry("web", "b")], (e: Entry) => if e.cmd == "a" then 1 else 2;
    var auto := Some(map["web" := true]);
    var one := map["web" := Process(1, "a")];
    assert entries[1..] == [Entry("web", "b")] && entries[1..][1..] == [];
    assert one["web" := Process(2, "b")] == map["web" := Process(2, "b")];
    assert AutostartEffects(auto, one, entries[1..], spawn) == StartEffects(one, Entry("web", "b"), 2) + [];
    assert map[]["web" := Process(1, "a")] == one;
  }

  // ---------------------------------------------------------------- permission

  /** The user turned this daemon's autostart on. */
  predicate Permitted(autostart: Option<map<string, bool>>, name: string) {
    autostart.Some? && name in autostart.value && autostart.value[name]
  }

  /** A name nobody decided about, which lookup in an existing autostart table still finds. */
  predicate FoundOnPrototype(autostart: Option<map<string, bool>>, name: string) {
    autostart.Some? && name !in autostart.value && name in INHERITED_NAMES
  }

  lemma {:induction false} AllowedIsLaunched(
    autostart: Option<map<string, bool>>, pids: map<string, Process>, entries: seq<Entry>, spawn: Entry -> nat, i: nat)
    requires i < |entries| && Allowed(autostart, entries[i].name)
    ensures Launched(entries[i].name, Process(spawn(entries[i]), entries[i].cmd))
         in AutostartEffects(autostart, pids, entries, spawn)
    decreases |entries|
  {
    var e, rest := entries[0], entries[1..];
    if i == 0 {
      assert AutostartEffects(autostart, pids, entries, spawn)[0] == Launched(e.name, Process(spawn(e), e.cmd));
    } else {
      assert rest[i - 1] == entries[i];
      var next := if Allowed(autostart, e.name) then pids[e.name := Process(spawn(e), e.cmd)] else pids;
      AllowedIsLaunched(autostart, next, rest, spawn, i - 1);
    }
  }

  /** An opening starts permitted daemons only, exactly when no declared name is one that lookup finds on
      Object.prototype. */
  lemma {:induction false} StartsOnlyPermitted(policy: Policy, entries: seq<Entry>, spawn: Entry -> nat)
    requires DistinctNames(entries)
    ensures (forall e :: e in Effects(policy, entries, spawn) && e.Launched? ==> Permitted(policy.autostart, e.name)) <==>
      !exists i :: 0 <= i < |entries| && FoundOnPrototype(policy.autostart, entries[i].name)
  {
    var log, starts := Effects(policy, entries, spawn), AutostartEffects(policy.autostart, map[], entries, spawn);
    StartsAreRecorded(policy.autostart, map[], entries, spawn, |starts|);
    assert starts[..|starts|] == starts;
    assert forall e: Effect :: e.Launched? ==> (e in log <==> e in starts);
    if exists i :: 0 <= i < |entries| && FoundOnPrototype(policy.autostart, entries[i].name) {
      var i :| 0 <= i < |entries| && FoundOnPrototype(policy.autostart, entries[i].name);
      AllowedIsLaunched(policy.autostart, map[], entries, spawn, i);
    } else {
      forall e | e in starts && e.Launched? ensures Permitted(policy.autostart, e.name) {
        var j :| 0 <= j < |starts| && starts[j] == e;
        assert NamesOne(entries, e.name);
      }
    }
  }

  /** A daemon called `constructor`, which nobody decided about, is started once any daemon was decided about. */
  lemma UndecidedIsStarted()
    ensures var policy := Policy(Some(map["web" := false]), map[]);
      Launched("constructor", Process(1, "run")) in Effects(policy, [Entry("constructor", "run")], _ => 1)
      && !Permitted(policy.autostart, "constructor") && FoundOnPrototype(policy.autostart, "constructor")
  {
    var autostart := Some(map["web" := false]);
    var entries := [Entry("constructor", "run")];
    AllowedIsLaunched(autostart, map[], entries, _ => 1, 0);
  }
}
