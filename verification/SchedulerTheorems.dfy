/** What the scheduler guarantees over any history of runs, crashes and restarts. */
module SchedulerTheorems {
  import opened Text
  import opened PlatformJson
  import opened ReconciliationItem
  import opened ReconciliationRunner
  import opened ReconciliationScheduler
  import opened SchedulerHistory

  ghost predicate SaneSessions(sessions: seq<Session>) {
    forall i :: 0 <= i < |sessions| ==> SaneSession(sessions[i])
  }

  /** At every crash point: a wake version recorded in the state file is on disk as a wake file. */
  lemma WakeOnDisk(hash: Hash, sessions: seq<Session>)
    requires Injective(hash) && SaneSessions(sessions)
    requires StateAfter(History(hash, sessions)).Some?
    requires StateAfter(History(hash, sessions)).value.lastWake > 0
    ensures var log := History(hash, sessions);
            var st := StateAfter(log).value;
            exists p :: p in WakesAfter(log) && WakesAfter(log)[p].version == st.lastWake
                     && WakesAfter(log)[p].campaign == st.campaign && WakesAfter(log)[p].challenge == st.challenge
  {
    hide AllGood, History;
    var log := History(hash, sessions);
    HistoryGood(hash, sessions);
    GoodLogState(hash, log);
    var st := StateAfter(log).value;
    var p :| p in WakesAfter(log) && Announces(WakesAfter(log)[p], st);
  }

  /** Every state the scheduler leaves is accepted by the next run of the same identity, under the
      same arguments under which a first run would start. */
  lemma StateAccepted(hash: Hash, sessions: seq<Session>, setup: Setup, cycles: nat, now: int)
    requires Injective(hash) && SaneSessions(sessions)
    ensures var saved := StateAfter(History(hash, sessions));
            && Begin(setup, saved, cycles, now) != Err(BadCounters)
            && (saved.Some? && Begin(setup, None, cycles, now).Ok? && BoundTo(saved.value, Begin(setup, None, cycles, now).value.0)
                ==> Begin(setup, saved, cycles, now) == Ok((Begin(setup, None, cycles, now).value.0, saved.value)))
  {
    hide AllGood, History, StateAfter, HasWake, Blank;
    HistoryGood(hash, sessions);
    if StateAfter(History(hash, sessions)).Some? { GoodLogState(hash, History(hash, sessions)); }
  }

  // --- positions ---

  function PositionsOf(items: seq<Item>): (ps: seq<int>)
    ensures |ps| == |items| && forall k :: 0 <= k < |ps| ==> ps[k] == items[k].position
  {
    seq(|items|, k requires 0 <= k < |items| => items[k].position)
  }

  /** The positions of all items of the cycles whose state was saved, in order. */
  function Positions(log: seq<Write>): seq<int> {
    if log == [] then []
    else
      var last := log[|log| - 1];
      Positions(log[..|log| - 1]) + if last.SaveState? then PositionsOf(last.issued) else []
  }

  /** How many cycles were completed. */
  function Completed(log: seq<Write>): nat {
    if log == [] then 0
    else
      var last := log[|log| - 1];
      Completed(log[..|log| - 1]) + if last.SaveState? && last.state.lastError.None? then 1 else 0
  }

  predicate Ascending(ps: seq<int>) { forall i, j :: 0 <= i < j < |ps| ==> ps[i] < ps[j] }

  predicate Below(ps: seq<int>, n: int) { forall i :: 0 <= i < |ps| ==> 0 <= ps[i] < n }

  lemma AscendingConcat(a: seq<int>, b: seq<int>, n: int, m: int)
    requires Ascending(a) && Below(a, n) && Ascending(b) && 0 <= n <= m
    requires forall i :: 0 <= i < |b| ==> n <= b[i] < m
    ensures Ascending(a + b) && Below(a + b, m)
  {}

  lemma {:induction false} GoodPositions(hash: Hash, log: seq<Write>)
    requires AllGood(hash, [], log)
    ensures Ascending(Positions(log))
    ensures match StateAfter(log)
            case None => Positions(log) == [] && Completed(log) == 0
            case Some(st) => st.cursor >= 0 && Below(Positions(log), st.cursor) && st.cycles == Completed(log)
  {
    hide AllGood, HasWake, Ascending, Below;
    if log == [] {
      NoneAscending();
    } else {
      var front := log[..|log| - 1];
      var last := log[|log| - 1];
      AllGoodPrefix(hash, [], log, |log| - 1);
      LastGood(hash, log);
      GoodPositions(hash, front);
      if last.SaveState? {
        var st := last.state;
        if st.lastError.Some? {
          assert Positions(log) == Positions(front);
          if StateAfter(front).None? { NoneAscending(); }
        } else {
          var start := StartOf(st, last.issued);
          if StateAfter(front).None? { NoneAscending(); }
          Consecutive(PositionsOf(last.issued), start);
          var n := if StateAfter(front).Some? then StateAfter(front).value.cursor else start;
          AscendingConcat(Positions(front), PositionsOf(last.issued), n, st.cursor);
        }
      } else {
        assert Positions(log) == Positions(front);
      }
    }
  }

  lemma NoneAscending()
    ensures Ascending([]) && forall n :: Below([], n)
  {}

  lemma Consecutive(ps: seq<int>, start: int)
    requires forall k :: 0 <= k < |ps| ==> ps[k] == start + k
    ensures Ascending(ps)
  {}

  /** Over all completed cycles of all runs, the item positions strictly increase: no position is
      issued twice, and none at or beyond the saved cursor. The state counts the cycles. */
  lemma PositionsIncrease(hash: Hash, sessions: seq<Session>)
    requires Injective(hash) && SaneSessions(sessions)
    ensures var log := History(hash, sessions);
            && Ascending(Positions(log))
            && match StateAfter(log)
               case None => Positions(log) == [] && Completed(log) == 0
               case Some(st) => Below(Positions(log), st.cursor) && st.cycles == Completed(log)
  {
    HistoryGood(hash, sessions);
    GoodPositions(hash, History(hash, sessions));
  }

  /** Whatever crashed before: each batch handed to the ledger starts at the cursor, and at the version,
      that the state file holds at that moment. */
  lemma BatchesAligned(hash: Hash, sessions: seq<Session>, k: nat)
    requires Injective(hash) && SaneSessions(sessions)
    requires k < |History(hash, sessions)| && History(hash, sessions)[k].Batch?
    ensures Aligned(StateAfter(History(hash, sessions)[..k]), History(hash, sessions)[k])
  {
    hide History, AllGood, Aligned;
    GoodAt(hash, sessions, k);
  }

  /** The items that a saved state counts are those that the ledger was last handed. */
  lemma IssuedToLedger(hash: Hash, sessions: seq<Session>, k: nat)
    requires Injective(hash) && SaneSessions(sessions)
    requires k < |History(hash, sessions)| && History(hash, sessions)[k].SaveState?
    requires History(hash, sessions)[k].issued != []
    ensures LastBatch(History(hash, sessions)[..k]) == Some(History(hash, sessions)[k].issued)
  {
    hide History, AllGood, Aligned;
    GoodAt(hash, sessions, k);
  }

  lemma GoodAt(hash: Hash, sessions: seq<Session>, k: nat)
    requires Injective(hash) && SaneSessions(sessions) && k < |History(hash, sessions)|
    ensures Good(hash, History(hash, sessions)[..k], History(hash, sessions)[k])
  {
    hide History, Good;
    HistoryGood(hash, sessions);
    var log := History(hash, sessions);
    assert [] + log[..k] == log[..k];
  }

  // --- one undisturbed run ---

  /** The versions of the wakes, in the order of writing. */
  function WakeVersions(ws: seq<Write>): seq<int> {
    if ws == [] then []
    else
      var last := ws[|ws| - 1];
      WakeVersions(ws[..|ws| - 1]) + if last.ChiefWake? then [last.wake.version] else []
  }

  predicate Applied(report: Report) { report.CycleDone? && report.applied > 0 }

  function AppliedCycles(reports: seq<Report>): nat {
    if reports == [] then 0 else (if Applied(reports[0]) then 1 else 0) + AppliedCycles(reports[1..])
  }

  lemma {:induction false} WakeVersionsConcat(a: seq<Write>, b: seq<Write>)
    ensures WakeVersions(a + b) == WakeVersions(a) + WakeVersions(b)
  {
    if b == [] {
      assert a + b == a;
    } else {
      assert (a + b)[..|a + b| - 1] == a + b[..|b| - 1];
      WakeVersionsConcat(a, b[..|b| - 1]);
    }
  }

  lemma {:induction false} NoWakes(ws: seq<Write>)
    requires forall w :: w in ws ==> !w.ChiefWake?
    ensures WakeVersions(ws) == []
  {
    if ws != [] { NoWakes(ws[..|ws| - 1]); }
  }

  predicate Between(vs: seq<int>, lo: int, hi: int) { forall i :: 0 <= i < |vs| ==> lo < vs[i] <= hi }

  /** A cycle writes one wake, of its new version, exactly if something was applied. */
  lemma StepWakes(hash: Hash, cfg: Config, st: SchedulerState, input: Input)
    ensures var step := StepOf(hash, cfg, st, input);
            && step.state.version >= st.version
            && WakeVersions(step.writes) ==
                 (if step.report.Some? && Applied(step.report.value) then [step.state.version] else [])
            && (step.report.Some? && Applied(step.report.value) ==> step.state.version > st.version && step.end.None?)
  {
    hide CycleOf, Objection, DoneState, WakeWrites, WakeVersions;
    var cycle := CycleOf(cfg, st.cursor, st.version, input);
    CycleWrites(cfg, st.cursor, st.version, input);
    NoWakes(cycle.writes);
    match cycle.result
    case Err(f) =>
      WakeVersionsConcat(cycle.writes, [SaveState(FailedState(st, input.now, f), [])]);
      NoWakes([SaveState(FailedState(st, input.now, f), [])]);
    case Ok(o) =>
      CycleOutcome(cfg, st.cursor, st.version, input);
      var saved := [SaveState(DoneState(st, o.summary, input.now), o.items)];
      var ws := WakeWrites(hash, cfg, st, o.summary);
      NoWakes(saved);
      WakeVersionsConcat(cycle.writes + ws, saved);
      WakeVersionsConcat(cycle.writes, ws);
      if Objection(st, o.summary).None? { DoneWakes(hash, cfg, st, o.summary, input.now); }
  }

  lemma DoneWakes(hash: Hash, cfg: Config, st: SchedulerState, summary: Summary, now: int)
    requires Objection(st, summary).None? && (summary.chief <==> summary.applied > 0)
    ensures var next := DoneState(st, summary, now);
            && next.version >= st.version && (summary.applied > 0 ==> next.version > st.version)
            && WakeVersions(WakeWrites(hash, cfg, st, summary)) == if summary.applied > 0 then [next.version] else []
  {
    var ws := WakeWrites(hash, cfg, st, summary);
    assert ws != [] ==> ws[..0] == [];
  }

  lemma AscendingJoin(a: seq<int>, b: seq<int>, lo: int, mid: int, hi: int)
    requires Ascending(a) && Ascending(b) && Between(a, lo, mid) && Between(b, mid, hi) && lo <= mid <= hi
    ensures Ascending(a + b) && Between(a + b, lo, hi)
  {}

  /** In a run that is not disturbed, the wakes are as many as the cycles that applied something,
      and their versions strictly increase. */
  lemma {:induction false} RunWakes(hash: Hash, cfg: Config, st: SchedulerState, inputs: seq<Input>)
    ensures var run := RunOf(hash, cfg, st, inputs);
            && |WakeVersions(run.writes)| == AppliedCycles(run.reports)
            && Ascending(WakeVersions(run.writes))
            && Between(WakeVersions(run.writes), st.version, run.state.version)
            && st.version <= run.state.version
    decreases |inputs|
  {
    hide StepOf;
    if inputs != [] {
      var step := StepOf(hash, cfg, st, inputs[0]);
      StepWakes(hash, cfg, st, inputs[0]);
      if step.end.None? {
        var rest := RunOf(hash, cfg, step.state, inputs[1..]);
        RunWakes(hash, cfg, step.state, inputs[1..]);
        WakeVersionsConcat(step.writes, rest.writes);
        AscendingJoin(WakeVersions(step.writes), WakeVersions(rest.writes), st.version, step.state.version,
                      rest.state.version);
        AppliedConcat(ReportsOf(step), rest.reports);
      }
    }
  }

  lemma AppliedConcat(a: seq<Report>, b: seq<Report>)
    requires |a| <= 1
    ensures AppliedCycles(a + b) == AppliedCycles(a) + AppliedCycles(b)
  {
    if a == [] {
      assert a + b == b;
    } else {
      assert (a + b)[1..] == b && a[1..] == [];
    }
  }

  /** Wakes of different versions have different files. */
  lemma WakeFilesApart(hash: Hash, a: Wake, b: Wake)
    requires Injective(hash) && SaneWake(a) && SaneWake(b) && a.version != b.version
    ensures hash(Material(a)) != hash(Material(b))
  {
    if Material(a) == Material(b) { MaterialInjective(a, b); }
  }

  /** The wake files that were written. */
  ghost function WakePaths(ws: seq<Write>): set<string> { set w | w in ws && w.ChiefWake? :: w.path }

  /** Every wake is written under the digest of its material. */
  ghost predicate WellNamed(hash: Hash, ws: seq<Write>) {
    forall w :: w in ws && w.ChiefWake? ==> w.path == hash(Material(w.wake)) && SaneWake(w.wake)
  }

  lemma GoodNames(hash: Hash, log: seq<Write>, ws: seq<Write>)
    requires AllGood(hash, log, ws)
    ensures WellNamed(hash, ws)
  {
    hide Material, SaneWake;
    forall w | w in ws && w.ChiefWake? ensures w.path == hash(Material(w.wake)) && SaneWake(w.wake) {
      var k :| 0 <= k < |ws| && ws[k] == w;
      assert Good(hash, log + ws[..k], ws[k]);
    }
  }

  lemma {:induction false} VersionListed(ws: seq<Write>, w: Write)
    requires w in ws && w.ChiefWake?
    ensures w.wake.version in WakeVersions(ws)
  {
    var front, last := ws[..|ws| - 1], ws[|ws| - 1];
    if w != last {
      assert w in front;
      VersionListed(front, w);
    }
  }

  /** Wakes of ascending versions are as many files. */
  lemma {:induction false} PathsApart(hash: Hash, ws: seq<Write>)
    requires Injective(hash) && WellNamed(hash, ws) && Ascending(WakeVersions(ws))
    ensures |WakePaths(ws)| == |WakeVersions(ws)|
  {
    hide Injective, Ascending, WellNamed, WakePaths;
    if ws == [] {
      NoPaths();
    } else {
      var front, last := ws[..|ws| - 1], ws[|ws| - 1];
      assert ws == front + [last];
      NamedFront(hash, front, last);
      var more := if last.ChiefWake? then [last.wake.version] else [];
      AscendingFront(WakeVersions(front), more);
      PathsApart(hash, front);
      PathsSnoc(front, last);
      if last.ChiefWake? {
        assert last.wake.version in more;
        NewPath(hash, front, last);
      }
    }
  }

  lemma NoPaths()
    ensures WakePaths([]) == {}
  {}

  lemma PathsSnoc(front: seq<Write>, last: Write)
    ensures WakePaths(front + [last]) == WakePaths(front) + if last.ChiefWake? then {last.path} else {}
  {
    var ws := front + [last];
    forall w ensures w in ws <==> w in front || w == last {}
  }

  lemma NamedFront(hash: Hash, front: seq<Write>, last: Write)
    requires WellNamed(hash, front + [last])
    ensures WellNamed(hash, front)
    ensures last.ChiefWake? ==> last.path == hash(Material(last.wake)) && SaneWake(last.wake)
  {
    assert last in front + [last];
  }

  lemma AscendingFront(a: seq<int>, b: seq<int>)
    requires Ascending(a + b)
    ensures Ascending(a) && forall v, w :: v in a && w in b ==> v < w
  {
    assert forall i :: 0 <= i < |a| ==> (a + b)[i] == a[i];
    assert forall i :: 0 <= i < |b| ==> (a + b)[|a| + i] == b[i];
  }

  lemma NewPath(hash: Hash, front: seq<Write>, last: Write)
    requires Injective(hash) && WellNamed(hash, front + [last]) && last.ChiefWake?
    requires forall v :: v in WakeVersions(front) ==> v < last.wake.version
    ensures last.path !in WakePaths(front)
  {
    hide Injective, Material, SaneWake, WakeVersions;
    NamedFront(hash, front, last);
    forall w | w in front && w.ChiefWake? ensures w.path != last.path {
      VersionListed(front, w);
      WakeFilesApart(hash, w.wake, last.wake);
    }
  }

  /** A wake file stays, with its version, whatever else is written under the right names. */
  lemma {:induction false} WakeStays(hash: Hash, log: seq<Write>, ws: seq<Write>, w: Write)
    requires Injective(hash) && WellNamed(hash, ws) && w in ws && w.ChiefWake?
    ensures w.path in WakesAfter(log + ws) && WakesAfter(log + ws)[w.path].version == w.wake.version
  {
    hide Injective, Material, SaneWake;
    var front, last := ws[..|ws| - 1], ws[|ws| - 1];
    assert ws == front + [last];
    Assoc(log, front, [last]);
    StateSnoc(log + front, last);
    if w in front {
      WakeStays(hash, log, front, w);
      if last.ChiefWake? && last.path == w.path && last.wake.version != w.wake.version {
        WakeFilesApart(hash, w.wake, last.wake);
      }
    }
  }

  /** After any history, a run that is not disturbed writes exactly as many wake files as it has cycles that
      applied something, and each of them is on disk at the end with the version it was written for. */
  lemma WakeFiles(hash: Hash, sessions: seq<Session>, s: Session)
    requires Injective(hash) && SaneSessions(sessions) && SaneSession(s)
    requires Begin(s.setup, StateAfter(History(hash, sessions)), |s.inputs|, s.now).Ok?
    ensures var log := History(hash, sessions);
            var (cfg, st) := Begin(s.setup, StateAfter(log), |s.inputs|, s.now).value;
            var run := RunOf(hash, cfg, st, s.inputs);
            && |WakePaths(run.writes)| == AppliedCycles(run.reports)
            && forall w :: w in run.writes && w.ChiefWake? ==>
                 && w.path in WakesAfter(log + run.writes)
                 && WakesAfter(log + run.writes)[w.path].version == w.wake.version
                 && st.version < w.wake.version <= run.state.version
  {
    hide History, Begin, RunOf, AllGood, Anchored, WakesAfter, StateAfter, Injective, WellNamed, WakePaths;
    var log := History(hash, sessions);
    var (cfg, st) := Begin(s.setup, StateAfter(log), |s.inputs|, s.now).value;
    var run := RunOf(hash, cfg, st, s.inputs);
    HistoryGood(hash, sessions);
    BeginAnchored(hash, log, s);
    RunGood(hash, log, cfg, st, s.inputs);
    GoodNames(hash, log, run.writes);
    RunWakes(hash, cfg, st, s.inputs);
    PathsApart(hash, run.writes);
    forall w | w in run.writes && w.ChiefWake?
      ensures w.path in WakesAfter(log + run.writes)
      ensures WakesAfter(log + run.writes)[w.path].version == w.wake.version
      ensures st.version < w.wake.version <= run.state.version
    {
      WakeStays(hash, log, run.writes, w);
      VersionListed(run.writes, w);
    }
  }

  function CompletedReports(reports: seq<Report>): nat {
    if reports == [] then 0 else (if reports[0].CycleDone? then 1 else 0) + CompletedReports(reports[1..])
  }

  /** A failed cycle is the last one attempted, and the counters it leaves are those after the
      cycles completed before it. */
  lemma {:induction false} FailureIsLast(hash: Hash, cfg: Config, st: SchedulerState, inputs: seq<Input>)
    ensures var run := RunOf(hash, cfg, st, inputs);
            && (forall k :: 0 <= k < |run.reports| && run.reports[k].CycleFailed? ==>
                  k == |run.reports| - 1 && run.end.Stopped?)
            && (run.end.Stopped? ==>
                  && run.reports != []
                  && run.reports[|run.reports| - 1] == CycleFailed(run.state.cursor, run.state.version)
                  && run.writes != [] && run.writes[|run.writes| - 1] == SaveState(run.state, []))
            && run.state.cycles == st.cycles + CompletedReports(run.reports)
    decreases |inputs|
  {
    hide StepOf;
    if inputs != [] {
      var step := StepOf(hash, cfg, st, inputs[0]);
      StepReport(hash, cfg, st, inputs[0]);
      if step.end.None? {
        var rest := RunOf(hash, cfg, step.state, inputs[1..]);
        FailureIsLast(hash, cfg, step.state, inputs[1..]);
        assert (ReportsOf(step) + rest.reports)[1..] == rest.reports;
      }
    }
  }

  lemma StepReport(hash: Hash, cfg: Config, st: SchedulerState, input: Input)
    ensures var step := StepOf(hash, cfg, st, input);
            && (step.end.None? ==> step.report.Some? && step.report.value.CycleDone?
                                   && step.state.cycles == st.cycles + 1)
            && (step.end.Some? ==> SameCounters(st, step.state) && !step.end.value.AllDone?)
            && (step.end == Some(Stopped) ==>
                  && step.report == Some(CycleFailed(step.state.cursor, step.state.version))
                  && step.writes != [] && step.writes[|step.writes| - 1] == SaveState(step.state, []))
            && (step.end.Some? && step.end.value.Raised? ==> step.report.None?)
  {
    hide CycleOf, WakeWrites;
  }
}
