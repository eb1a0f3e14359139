/** The scheduler: sequential cycles over a durable cursor. */
module ReconciliationScheduler {
  import opened Text
  import opened PlatformJson
  import opened ReconciliationItem
  import opened ReconciliationRunner

  const MAX_UINT63: int := 0x7FFF_FFFF_FFFF_FFFF

  /** The truncated digest that names a wake file. */
  type Hash = string -> string

  /** Why a scheduler run ends with an exception instead of a report. */
  datatype Refusal =
    | BadArguments
    | BadContext
    | ForeignState
    | BadCounters
    | CursorOverflow
    | Unhandled(failure: Failure)

  /** The monitor context file, if it can be read. */
  datatype Context = Context(role: string, campaign: string, challenge: string)

  /** The arguments of a scheduler run. */
  datatype Setup = Setup(lib: Library, challenge: string, route: string, expectedOwner: Option<string>,
                         cursor: int, version: int, intervalMs: int,
                         context: Option<Context>, contextSha256: string)

  predicate Uint63(n: int) { 0 <= n <= MAX_UINT63 }

  /** `_validate_state` on the counters. */
  predicate GoodCounters(st: SchedulerState) {
    Uint63(st.cursor) && Uint63(st.version) && Uint63(st.lastWake) && st.lastWake <= st.version && st.cycles >= 0
  }

  predicate BoundTo(st: SchedulerState, cfg: Config) {
    && st.challenge == cfg.challenge && st.route == cfg.route
    && st.campaign == cfg.campaign && st.contextSha256 == cfg.contextSha256
  }

  function NewState(cfg: Config, cursor: int, version: int, now: int): SchedulerState {
    SchedulerState(cfg.challenge, cfg.route, cfg.campaign, cfg.contextSha256, cursor, version, 0, 0, now, None, None)
  }

  /** Everything before the first cycle: the arguments, the context, the state file. */
  function Begin(setup: Setup, saved: Option<SchedulerState>, cycles: nat, now: int)
    : Result<(Config, SchedulerState), Refusal>
  {
    if Blank(setup.challenge) || Blank(setup.route) || !Uint63(setup.cursor) || !Uint63(setup.version)
       || cycles == 0 || (cycles > 1 && !(1000 <= setup.intervalMs <= 3600000)) then Err(BadArguments)
    else if setup.context.None? || setup.context.value.role != "monitor" || setup.context.value.campaign == ""
            || setup.context.value.challenge != setup.challenge then Err(BadContext)
    else
      var cfg := Config(setup.lib, setup.challenge, setup.route, setup.context.value.campaign, setup.contextSha256,
                        setup.expectedOwner);
      match saved
      case None => Ok((cfg, NewState(cfg, setup.cursor, setup.version, now)))
      case Some(st) =>
        if !BoundTo(st, cfg) then Err(ForeignState)
        else if !GoodCounters(st) then Err(BadCounters)
        else Ok((cfg, st))
  }

  function Max(a: int, b: int): int { if a < b then b else a }

  /** The wake of a cycle, and the material that its name is the digest of. */
  function WakeOf(cfg: Config, summary: Summary, version: int): Wake {
    Wake(cfg.campaign, cfg.challenge, cfg.challenge + "/attempts", version, summary.cursor, summary.sha256)
  }

  const NUL := "\0"

  function Material(w: Wake): string {
    w.campaign + NUL + w.challenge + NUL + w.stream + NUL + IntText(w.version) + NUL + w.sha256
  }

  function WakeWrite(hash: Hash, w: Wake): Write { ChiefWake(hash(Material(w)), w) }

  datatype Report =
    | CycleFailed(cursor: int, version: int)
    | CycleDone(applied: nat, cursor: int, next: int, version: int, nextVersion: int, wake: Option<string>)

  datatype End = AllDone | Stopped | Raised(why: Refusal)

  /** What one cycle comes to: its writes, and how the loop goes on. */
  datatype Step = Step(writes: seq<Write>, state: SchedulerState, report: Option<Report>, end: Option<End>)

  function FailedState(st: SchedulerState, now: int, f: Failure): SchedulerState {
    st.(updatedAt := now, lastStatus := Some("failed"), lastError := Some(f))
  }

  function NextVersion(summary: Summary, version: int): int {
    if summary.nextVersion.Some? then summary.nextVersion.value else version
  }

  function DoneState(st: SchedulerState, summary: Summary, now: int): SchedulerState {
    var version := NextVersion(summary, st.version);
    st.(cursor := st.cursor + Max(1, summary.itemCount), version := version, cycles := st.cycles + 1,
        updatedAt := now, lastStatus := Some(summary.status), lastError := None,
        lastWake := if summary.chief then version else st.lastWake)
  }

  /** The checks of a cycle's summary that no `except` clause covers. */
  function Objection(st: SchedulerState, summary: Summary): Option<Refusal> {
    var version := NextVersion(summary, st.version);
    if !(st.version <= version <= MAX_UINT63) then Some(BadCounters)
    else if summary.applied > 0 && version <= st.version then Some(BadCounters)
    else if st.cursor + Max(1, summary.itemCount) > MAX_UINT63 then Some(CursorOverflow)
    else None
  }

  function WakeWrites(hash: Hash, cfg: Config, st: SchedulerState, summary: Summary): seq<Write> {
    if summary.chief then [WakeWrite(hash, WakeOf(cfg, summary, NextVersion(summary, st.version)))] else []
  }

  function StepOf(hash: Hash, cfg: Config, st: SchedulerState, input: Input): Step {
    var cycle := CycleOf(cfg, st.cursor, st.version, input);
    match cycle.result
    case Err(f) =>
      if Handled(f) then
        var st' := FailedState(st, input.now, f);
        Step(cycle.writes + [SaveState(st', [])], st', Some(CycleFailed(st.cursor, st.version)), Some(Stopped))
      else Step(cycle.writes, st, None, Some(Raised(Unhandled(f))))
    case Ok(o) =>
      var objection := Objection(st, o.summary);
      if objection.Some? then Step(cycle.writes, st, None, Some(Raised(objection.value)))
      else
        var st' := DoneState(st, o.summary, input.now);
        var wake := WakeWrites(hash, cfg, st, o.summary);
        Step(cycle.writes + wake + [SaveState(st', o.items)], st',
             Some(CycleDone(o.summary.applied, st.cursor, st'.cursor, st.version, st'.version,
                            if wake == [] then None else Some(wake[0].path))), None)
  }

  /** A whole run from a state, over what the world does in each cycle. */
  datatype Run = Run(writes: seq<Write>, reports: seq<Report>, state: SchedulerState, end: End)

  function ReportsOf(step: Step): seq<Report> { if step.report.Some? then [step.report.value] else [] }

  function RunOf(hash: Hash, cfg: Config, st: SchedulerState, inputs: seq<Input>): Run
    decreases |inputs|
  {
    if inputs == [] then Run([], [], st, AllDone)
    else
      var step := StepOf(hash, cfg, st, inputs[0]);
      if step.end.Some? then Run(step.writes, ReportsOf(step), step.state, step.end.value)
      else After(step.writes, ReportsOf(step), RunOf(hash, cfg, step.state, inputs[1..]))
  }

  function After(writes: seq<Write>, reports: seq<Report>, rest: Run): Run {
    Run(writes + rest.writes, reports + rest.reports, rest.state, rest.end)
  }

  lemma AfterAfter(w0: seq<Write>, r0: seq<Report>, w1: seq<Write>, r1: seq<Report>, rest: Run)
    ensures After(w0, r0, After(w1, r1, rest)) == After(w0 + w1, r0 + r1, rest)
  {
    Assoc(w0, w1, rest.writes);
    Assoc(r0, r1, rest.reports);
  }

  lemma AfterNothing(run: Run)
    ensures After([], [], run) == run
  {
    assert [] + run.writes == run.writes && [] + run.reports == run.reports;
  }

  /** `_write_chief_wake` */
  method WriteChiefWake(disk: Disk, hash: Hash, cfg: Config, summary: Summary, version: int) returns (path: string)
    requires disk.Valid()
    modifies disk
    ensures disk.Valid() && disk.log == old(disk.log) + [WakeWrite(hash, WakeOf(cfg, summary, version))]
    ensures path == hash(Material(WakeOf(cfg, summary, version)))
  {
    var wake := WakeOf(cfg, summary, version);
    path := hash(Material(wake));
    disk.Put(ChiefWake(path, wake));
  }

  /** The body of the loop. */
  method OneCycle(disk: Disk, hash: Hash, cfg: Config, st: SchedulerState, input: Input)
    returns (next: SchedulerState, report: Option<Report>, end: Option<End>)
    requires disk.Valid()
    modifies disk
    ensures disk.Valid()
    ensures disk.log == old(disk.log) + StepOf(hash, cfg, st, input).writes
    ensures var step := StepOf(hash, cfg, st, input);
            next == step.state && report == step.report && end == step.end
  {
    hide CycleOf;
    ghost var before := disk.log;
    ghost var writes := CycleOf(cfg, st.cursor, st.version, input).writes;
    var outcome := RunCycle(disk, cfg, st.cursor, st.version, input);
    match outcome
    case Err(f) =>
      if !Handled(f) { return st, None, Some(Raised(Unhandled(f))); }
      next := st.(updatedAt := input.now, lastStatus := Some("failed"), lastError := Some(f));
      disk.Put(SaveState(next, []));
      Assoc(before, writes, [SaveState(next, [])]);
      return next, Some(CycleFailed(st.cursor, st.version)), Some(Stopped);
    case Ok(o) =>
      var objection := Objection(st, o.summary);
      if objection.Some? { return st, None, Some(Raised(objection.value)); }
      var version := NextVersion(o.summary, st.version);
      var wakePath: Option<string> := None;
      if o.summary.chief {
        var path := WriteChiefWake(disk, hash, cfg, o.summary, version);
        wakePath := Some(path);
      }
      ghost var wake := WakeWrites(hash, cfg, st, o.summary);
      assert disk.log == before + writes + wake;
      next := st.(cursor := st.cursor + Max(1, o.summary.itemCount), version := version, cycles := st.cycles + 1);
      next := next.(updatedAt := input.now, lastStatus := Some(o.summary.status), lastError := None);
      if wakePath.Some? { next := next.(lastWake := version); }
      assert next == DoneState(st, o.summary, input.now);
      disk.Put(SaveState(next, o.items));
      Assoc(before, writes + wake, [SaveState(next, o.items)]);
      Assoc(before, writes, wake);
      report := Some(CycleDone(o.summary.applied, st.cursor, next.cursor, st.version, next.version, wakePath));
      end := None;
  }

  /** What the caller gets: a report, or an exception. */
  datatype Ending = Ending(reports: seq<Report>, failed: bool, state: SchedulerState)

  function EndingOf(run: Run): Result<Ending, Refusal> {
    match run.end
    case Raised(why) => Err(why)
    case _ => Ok(Ending(run.reports, run.end.Stopped?, run.state))
  }

  /** One more cycle of a run that has come to input `i`. */
  lemma RunNext(hash: Hash, cfg: Config, whole: Run, writes: seq<Write>, reports: seq<Report>, st: SchedulerState,
                inputs: seq<Input>, i: nat)
    requires i < |inputs| && whole == After(writes, reports, RunOf(hash, cfg, st, inputs[i..]))
    ensures var step := StepOf(hash, cfg, st, inputs[i]);
            whole == if step.end.Some?
                     then Run(writes + step.writes, reports + ReportsOf(step), step.state, step.end.value)
                     else After(writes + step.writes, reports + ReportsOf(step),
                                RunOf(hash, cfg, step.state, inputs[i + 1..]))
  {
    hide StepOf;
    assert inputs[i..][0] == inputs[i] && inputs[i..][1..] == inputs[i + 1..];
    var step := StepOf(hash, cfg, st, inputs[i]);
    AfterAfter(writes, reports, step.writes, ReportsOf(step), RunOf(hash, cfg, step.state, inputs[i + 1..]));
  }

  lemma RunEnds(hash: Hash, cfg: Config, writes: seq<Write>, reports: seq<Report>, st: SchedulerState)
    ensures After(writes, reports, RunOf(hash, cfg, st, [])) == Run(writes, reports, st, AllDone)
  {}

  /** `run_scheduled_cycles`: one cycle for each input, until one fails. */
  method RunScheduledCycles(disk: Disk, hash: Hash, setup: Setup, now: int, inputs: seq<Input>)
    returns (r: Result<Ending, Refusal>)
    requires disk.Valid()
    modifies disk
    ensures disk.Valid()
    ensures match Begin(setup, old(disk.state), |inputs|, now)
            case Err(e) => r == Err(e) && disk.log == old(disk.log)
            case Ok((cfg, st)) =>
              && disk.log == old(disk.log) + RunOf(hash, cfg, st, inputs).writes
              && r == EndingOf(RunOf(hash, cfg, st, inputs))
  {
    hide StepOf, RunOf, After, StateAfter, WakesAfter, Begin;
    var begun := Begin(setup, disk.state, |inputs|, now);
    if begun.Err? { return Err(begun.error); }
    var cfg, state := begun.value.0, begun.value.1;
    ghost var before := disk.log;
    ghost var whole := RunOf(hash, cfg, state, inputs);
    var results: seq<Report> := [];
    ghost var writes: seq<Write> := [];
    AfterNothing(whole);
    assert inputs[0..] == inputs;
    for i := 0 to |inputs|
      invariant disk.Valid() && disk.log == before + writes
      invariant whole == After(writes, results, RunOf(hash, cfg, state, inputs[i..]))
    {
      ghost var step := StepOf(hash, cfg, state, inputs[i]);
      RunNext(hash, cfg, whole, writes, results, state, inputs, i);
      Assoc(before, writes, step.writes);
      var next, report, end := OneCycle(disk, hash, cfg, state, inputs[i]);
      state := next;
      writes := writes + step.writes;
      assert results + [] == results;
      if report.Some? { results := results + [report.value]; }
      if end.Some? {
        if end.value.Raised? { return Err(end.value.why); }
        return Ok(Ending(results, end.value.Stopped?, state));
      }
    }
    assert inputs[|inputs|..] == [];
    RunEnds(hash, cfg, writes, results, state);
    return Ok(Ending(results, false, state));
  }
}
