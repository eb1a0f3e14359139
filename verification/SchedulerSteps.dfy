/** What a scheduler run does, start to end, decided from what comes in. */
module SchedulerSteps {
  import opened Text
  import opened PlatformJson
  import opened ReconciliationItem
  import opened ReconciliationRunner
  import opened ReconciliationScheduler
  import opened ReconciliationOutcome

  // --- the start ---

  predicate SoundArguments(setup: Setup, cycles: nat) {
    && !Blank(setup.challenge) && !Blank(setup.route)
    && 0 <= setup.cursor <= 9223372036854775807 && 0 <= setup.version <= 9223372036854775807
    && cycles >= 1 && (cycles >= 2 ==> 1000 <= setup.intervalMs <= 3600000)
  }

  predicate MonitorContext(setup: Setup) {
    && setup.context.Some? && setup.context.value.role == "monitor" && setup.context.value.campaign != ""
    && setup.context.value.challenge == setup.challenge
  }

  /** A saved state of the same challenge, route, campaign and context, with possible counters. */
  predicate OwnState(setup: Setup, st: SchedulerState)
    requires setup.context.Some?
  {
    && st.challenge == setup.challenge && st.route == setup.route && st.campaign == setup.context.value.campaign
    && st.contextSha256 == setup.contextSha256
    && 0 <= st.cursor <= 9223372036854775807 && 0 <= st.lastWake <= st.version <= 9223372036854775807
    && st.cycles >= 0
  }

  predicate FreshState(setup: Setup, now: int, st: SchedulerState)
    requires setup.context.Some?
  {
    && st.challenge == setup.challenge && st.route == setup.route && st.campaign == setup.context.value.campaign
    && st.contextSha256 == setup.contextSha256
    && st.cursor == setup.cursor && st.version == setup.version && st.lastWake == 0 && st.cycles == 0
    && st.updatedAt == now && st.lastStatus == None && st.lastError == None
  }

  ghost predicate ConfigFrom(setup: Setup, cfg: Config)
    requires setup.context.Some?
  {
    && cfg.lib == setup.lib && cfg.challenge == setup.challenge && cfg.route == setup.route
    && cfg.campaign == setup.context.value.campaign && cfg.contextSha256 == setup.contextSha256
    && cfg.expectedOwner == setup.expectedOwner
  }

  /** A run starts exactly with sound arguments, the right monitor context, and no state file or its own; it goes on
      from that state, or from a fresh one at the given cursor and version. */
  lemma RunStarts(setup: Setup, saved: Option<SchedulerState>, cycles: nat, now: int)
    ensures var begun := Begin(setup, saved, cycles, now);
            && (begun.Ok? <==> && SoundArguments(setup, cycles) && MonitorContext(setup)
                               && (saved.Some? ==> OwnState(setup, saved.value)))
            && (begun.Ok? ==>
                  && ConfigFrom(setup, begun.value.0)
                  && if saved.Some? then begun.value.1 == saved.value else FreshState(setup, now, begun.value.1))
  {
    hide Blank;
  }

  // --- one cycle ---

  /** The version that the ledger names, or the old one when there was nothing to hand over. */
  function VersionAfter(cfg: Config, st: SchedulerState, input: Input): int
    requires input.fetched.Ok?
  {
    if Converted(cfg, st.cursor, input) == Ok([]) || input.admin.Exited? || input.admin.Garbled?
       || !Field(input.admin.reply, "next_expected_version").Int?
    then st.version
    else Field(input.admin.reply, "next_expected_version").n
  }

  function AppliedIn(cfg: Config, st: SchedulerState, input: Input): nat
    requires input.fetched.Ok?
  {
    if Converted(cfg, st.cursor, input) == Ok([]) || !input.admin.Replied? then 0 else AppliedCount(input.admin.reply)
  }

  /** The cursor moves past the items, or past an empty page. */
  function CursorAfter(cfg: Config, st: SchedulerState, input: Input): int
    requires input.fetched.Ok? && Converted(cfg, st.cursor, input).Ok?
  {
    var n := |Converted(cfg, st.cursor, input).value|;
    if n == 0 then st.cursor + 1 else st.cursor + n
  }

  /** The counters of a cycle that ended well can be saved. */
  predicate Savable(cfg: Config, st: SchedulerState, input: Input)
    requires input.fetched.Ok? && Converted(cfg, st.cursor, input).Ok?
  {
    && VersionAfter(cfg, st, input) <= 9223372036854775807
    && (AppliedIn(cfg, st, input) >= 1 ==> VersionAfter(cfg, st, input) > st.version)
    && CursorAfter(cfg, st, input) <= 9223372036854775807
  }

  predicate SameBinding(st: SchedulerState, next: SchedulerState) {
    && next.challenge == st.challenge && next.route == st.route && next.campaign == st.campaign
    && next.contextSha256 == st.contextSha256
  }

  /** The state after a cycle that ended well. */
  predicate Advanced(cfg: Config, st: SchedulerState, input: Input, next: SchedulerState)
    requires input.fetched.Ok? && Converted(cfg, st.cursor, input).Ok?
  {
    && SameBinding(st, next)
    && next.cursor == CursorAfter(cfg, st, input) && next.version == VersionAfter(cfg, st, input)
    && next.lastWake == (if AppliedIn(cfg, st, input) >= 1 then VersionAfter(cfg, st, input) else st.lastWake)
    && next.cycles == st.cycles + 1 && next.updatedAt == input.now && next.lastError == None
    && next.lastStatus == Some(if Converted(cfg, st.cursor, input).value == [] then "no_items" else "batch_complete")
  }

  /** The state after a failure: only the report fields change. */
  predicate Failing(st: SchedulerState, input: Input, failure: Failure, next: SchedulerState) {
    && SameBinding(st, next) && next.cursor == st.cursor && next.version == st.version
    && next.lastWake == st.lastWake && next.cycles == st.cycles
    && next.updatedAt == input.now && next.lastStatus == Some("failed") && next.lastError == Some(failure)
  }

  /** The wake for the chief. */
  ghost predicate WakeFor(hash: Hash, cfg: Config, st: SchedulerState, input: Input, w: Write)
    requires input.fetched.Ok?
  {
    && w.ChiefWake?
    && w.wake.campaign == cfg.campaign && w.wake.challenge == cfg.challenge
    && w.wake.stream == cfg.challenge + "/attempts" && w.wake.version == VersionAfter(cfg, st, input)
    && w.wake.cursor == st.cursor && w.wake.sha256 == input.fetched.value.sha256
    && w.path == hash(cfg.campaign + "\0" + cfg.challenge + "\0" + (cfg.challenge + "/attempts") + "\0"
                      + IntText(VersionAfter(cfg, st, input)) + "\0" + input.fetched.value.sha256)
  }

  /** A cycle that fails is recorded and stops the run, unless its error escapes. */
  lemma FailedStep(hash: Hash, cfg: Config, st: SchedulerState, input: Input)
    requires !Succeeds(cfg, st.cursor, st.version, input)
    ensures var cycle := CycleOf(cfg, st.cursor, st.version, input);
            var step := StepOf(hash, cfg, st, input);
            && cycle.result.Err?
            && if Handled(cycle.result.error) then
                 && Failing(st, input, cycle.result.error, step.state)
                 && step.writes == cycle.writes + [SaveState(step.state, [])]
                 && step.report == Some(CycleFailed(st.cursor, st.version)) && step.end == Some(Stopped)
               else
                 && step.state == st && step.writes == cycle.writes && step.report == None
                 && step.end == Some(Raised(Unhandled(cycle.result.error)))
  {
    hide CycleOf, Succeeds;
    CycleSucceeds(cfg, st.cursor, st.version, input);
  }

  /** What a cycle that ends well tells the scheduler. */
  lemma Told(cfg: Config, st: SchedulerState, input: Input)
    requires Succeeds(cfg, st.cursor, st.version, input)
    ensures var result := CycleOf(cfg, st.cursor, st.version, input).result;
            && result.Ok?
            && result.value.items == Converted(cfg, st.cursor, input).value
            && result.value.summary.itemCount == |Converted(cfg, st.cursor, input).value|
            && NextVersion(result.value.summary, st.version) == VersionAfter(cfg, st, input) >= st.version
            && result.value.summary.applied == AppliedIn(cfg, st, input)
            && (result.value.summary.chief <==> AppliedIn(cfg, st, input) >= 1)
            && result.value.summary.status
               == (if Converted(cfg, st.cursor, input).value == [] then "no_items" else "batch_complete")
            && result.value.summary.cursor == st.cursor
            && result.value.summary.sha256 == input.fetched.value.sha256
  {
    hide CycleOf, Converted, AppliedCount, Covering;
    CycleSucceeds(cfg, st.cursor, st.version, input);
    CycleFiles(cfg, st.cursor, st.version, input);
    if Converted(cfg, st.cursor, input).value != [] { NextThere(cfg, st, input); }
  }

  lemma NextThere(cfg: Config, st: SchedulerState, input: Input)
    requires input.fetched.Ok? && Converted(cfg, st.cursor, input).Ok? && Taken(cfg, st.cursor, st.version, input)
    ensures Field(input.admin.reply, "next_expected_version").Int?
    ensures Field(input.admin.reply, "next_expected_version").n >= st.version
  {
    hide Converted, Get, HasFate;
  }

  /** A cycle that ends well is recorded, with a wake exactly if something was applied, unless its counters cannot
      be saved: then the run ends with an error and the state file stays as it was. */
  lemma CompletedStep(hash: Hash, cfg: Config, st: SchedulerState, input: Input)
    requires Succeeds(cfg, st.cursor, st.version, input)
    ensures var cycle := CycleOf(cfg, st.cursor, st.version, input);
            var items := Converted(cfg, st.cursor, input).value;
            var step := StepOf(hash, cfg, st, input);
            if !Savable(cfg, st, input) then
              && step.state == st && step.writes == cycle.writes && step.report == None
              && step.end.Some? && step.end.value.Raised?
            else
              && Advanced(cfg, st, input, step.state) && step.end == None
              && if AppliedIn(cfg, st, input) == 0 then
                   && step.writes == cycle.writes + [SaveState(step.state, items)]
                   && step.report == Some(CycleDone(0, st.cursor, step.state.cursor, st.version, step.state.version, None))
                 else
                   exists w ::
                     && WakeFor(hash, cfg, st, input, w) && step.writes == cycle.writes + [w] + [SaveState(step.state, items)]
                     && step.report == Some(CycleDone(AppliedIn(cfg, st, input), st.cursor, step.state.cursor, st.version,
                                                      step.state.version, Some(w.path)))
  {
    hide CycleOf, Converted, Taken, AppliedIn, VersionAfter, Material;
    Told(cfg, st, input);
    var o := CycleOf(cfg, st.cursor, st.version, input).result.value;
    var writes := CycleOf(cfg, st.cursor, st.version, input).writes;
    assert writes + [] == writes;
    var w := WakeWrite(hash, WakeOf(cfg, o.summary, NextVersion(o.summary, st.version)));
    MaterialSpelled(w.wake);
    assert WakeFor(hash, cfg, st, input, w);
  }

  lemma MaterialSpelled(w: Wake)
    ensures Material(w) == w.campaign + "\0" + w.challenge + "\0" + w.stream + "\0" + IntText(w.version) + "\0" + w.sha256
  {}

  // --- the run ---

  /** The states between the cycles: each cycle starts where the one before it left off, all but the last go on,
      and the last one is the last input's or the one that ended the run. */
  ghost predicate Chain(hash: Hash, cfg: Config, st: SchedulerState, inputs: seq<Input>, run: Run,
                        states: seq<SchedulerState>) {
    && 1 <= |states| <= |inputs| + 1 && states[0] == st && run.state == states[|states| - 1]
    && (forall k :: 0 <= k < |states| - 1 ==> StepOf(hash, cfg, states[k], inputs[k]).state == states[k + 1])
    && (forall k :: 0 <= k < |states| - 2 ==> StepOf(hash, cfg, states[k], inputs[k]).end == None)
    && (if run.end == AllDone then
          && |states| == |inputs| + 1
          && forall k :: 0 <= k < |inputs| ==> StepOf(hash, cfg, states[k], inputs[k]).end == None
        else |states| >= 2 && StepOf(hash, cfg, states[|states| - 2], inputs[|states| - 2]).end == Some(run.end))
    && run.writes == AllWrites(hash, cfg, states, inputs) && run.reports == AllReports(hash, cfg, states, inputs)
  }

  /** The writes and the reports of the cycles, one after the other. */
  function AllWrites(hash: Hash, cfg: Config, states: seq<SchedulerState>, inputs: seq<Input>): seq<Write>
    requires 1 <= |states| <= |inputs| + 1
  {
    if |states| == 1 then []
    else
      var k := |states| - 2;
      AllWrites(hash, cfg, states[..k + 1], inputs) + StepOf(hash, cfg, states[k], inputs[k]).writes
  }

  function AllReports(hash: Hash, cfg: Config, states: seq<SchedulerState>, inputs: seq<Input>): seq<Report>
    requires 1 <= |states| <= |inputs| + 1
  {
    if |states| == 1 then []
    else
      var k := |states| - 2;
      var report := StepOf(hash, cfg, states[k], inputs[k]).report;
      AllReports(hash, cfg, states[..k + 1], inputs) + if report.Some? then [report.value] else []
  }

  lemma {:induction false} AllFront(hash: Hash, cfg: Config, st: SchedulerState, input: Input,
                                    states: seq<SchedulerState>, inputs: seq<Input>)
    requires 1 <= |states| <= |inputs| + 1
    ensures var step := StepOf(hash, cfg, st, input);
            && AllWrites(hash, cfg, [st] + states, [input] + inputs) == step.writes + AllWrites(hash, cfg, states, inputs)
            && AllReports(hash, cfg, [st] + states, [input] + inputs)
               == ReportsOf(step) + AllReports(hash, cfg, states, inputs)
  {
    hide StepOf;
    var step := StepOf(hash, cfg, st, input);
    var k := |states| - 1;
    var longer, given := [st] + states, [input] + inputs;
    if |states| == 1 {
      assert longer[..1] == [st] && given[0] == input;
      assert AllWrites(hash, cfg, [st], given) == [] && AllReports(hash, cfg, [st], given) == [];
      assert [] + step.writes == step.writes + [] && [] + ReportsOf(step) == ReportsOf(step) + [];
    } else {
      AllFront(hash, cfg, st, input, states[..k], inputs);
      assert longer[..k + 1] == [st] + states[..k] && longer[k] == states[k - 1] && given[k] == inputs[k - 1];
      var last := StepOf(hash, cfg, states[k - 1], inputs[k - 1]);
      Assoc(step.writes, AllWrites(hash, cfg, states[..k], inputs), last.writes);
      Assoc(ReportsOf(step), AllReports(hash, cfg, states[..k], inputs), ReportsOf(last));
    }
  }

  /** A run is a chain of cycles. */
  lemma {:induction false} RunIsAChain(hash: Hash, cfg: Config, st: SchedulerState, inputs: seq<Input>)
    returns (states: seq<SchedulerState>)
    ensures Chain(hash, cfg, st, inputs, RunOf(hash, cfg, st, inputs), states)
    decreases |inputs|
  {
    hide StepOf;
    if inputs == [] {
      states := [st];
    } else {
      var step := StepOf(hash, cfg, st, inputs[0]);
      var rest := inputs[1..];
      assert inputs == [inputs[0]] + rest;
      if step.end.Some? {
        states := [st] + [step.state];
        AllFront(hash, cfg, st, inputs[0], [step.state], rest);
        NotDone(hash, cfg, st, inputs[0]);
        assert step.writes + [] == step.writes && ReportsOf(step) + [] == ReportsOf(step);
      } else {
        var more := RunIsAChain(hash, cfg, step.state, rest);
        states := [st] + more;
        AllFront(hash, cfg, st, inputs[0], more, rest);
        ChainLonger(hash, cfg, st, inputs, more);
      }
    }
  }

  lemma NotDone(hash: Hash, cfg: Config, st: SchedulerState, input: Input)
    ensures StepOf(hash, cfg, st, input).end != Some(AllDone)
  {
    hide CycleOf, Objection, WakeWrites;
  }

  lemma ChainLonger(hash: Hash, cfg: Config, st: SchedulerState, inputs: seq<Input>, more: seq<SchedulerState>)
    requires inputs != [] && StepOf(hash, cfg, st, inputs[0]).end.None?
    requires Chain(hash, cfg, StepOf(hash, cfg, st, inputs[0]).state, inputs[1..],
                   RunOf(hash, cfg, StepOf(hash, cfg, st, inputs[0]).state, inputs[1..]), more)
    requires AllWrites(hash, cfg, [st] + more, inputs)
          == StepOf(hash, cfg, st, inputs[0]).writes + AllWrites(hash, cfg, more, inputs[1..])
    requires AllReports(hash, cfg, [st] + more, inputs)
          == ReportsOf(StepOf(hash, cfg, st, inputs[0])) + AllReports(hash, cfg, more, inputs[1..])
    ensures Chain(hash, cfg, st, inputs, RunOf(hash, cfg, st, inputs), [st] + more)
  {
    hide StepOf, AllWrites, AllReports, ReportsOf;
    var states := [st] + more;
    var rest := inputs[1..];
    assert forall k :: 0 < k < |states| ==> states[k] == more[k - 1];
    assert forall k :: 0 < k < |inputs| ==> inputs[k] == rest[k - 1];
    forall k | 0 <= k < |states| - 1 ensures StepOf(hash, cfg, states[k], inputs[k]).state == states[k + 1] {
      if k > 0 { assert StepOf(hash, cfg, more[k - 1], rest[k - 1]).state == more[k]; }
    }
    forall k | 0 <= k < |states| - 2 ensures StepOf(hash, cfg, states[k], inputs[k]).end == None {
      if k > 0 { assert StepOf(hash, cfg, more[k - 1], rest[k - 1]).end == None; }
    }
    var run := RunOf(hash, cfg, st, inputs);
    if run.end == AllDone {
      forall k | 0 <= k < |inputs| ensures StepOf(hash, cfg, states[k], inputs[k]).end == None {
        if k > 0 { assert StepOf(hash, cfg, more[k - 1], rest[k - 1]).end == None; }
      }
    }
  }

  /** What the caller gets: the exception that ended the run, or all reports with the last state, marked as failed
      exactly if a cycle failed. */
  lemma EndingMeans(run: Run)
    ensures forall why :: EndingOf(run) == Err(why) <==> run.end == Raised(why)
    ensures EndingOf(run).Ok? ==>
              && EndingOf(run).value.reports == run.reports && EndingOf(run).value.state == run.state
              && (EndingOf(run).value.failed <==> run.end == Stopped)
  {}
}
