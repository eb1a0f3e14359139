/** The builder's main program: emit, anchor, check, write. */
module TraceRun {
  import opened Text
  import opened TraceSteps
  import opened TraceBuilder
  import opened TracePlaces

  /** The final checks, in their order. */
  datatype Check = Pairing | Following | Thoughts | CostFloor | LogAnchor

  datatype Outcome =
    | EmptyLog
    | NoCommands
    | BannedStep(number: nat)
    | Unsound(check: Check)
    | Written(steps: seq<Step>)

  /** The list of steps and the counter that `emit` updates. */
  class Tracer {
    var steps: seq<Step>
    var order: nat

    ghost predicate Valid()
      reads this
    {
      order == |steps|
    }

    constructor ()
      ensures Valid() && steps == []
    {
      steps, order := [], 0;
    }

    method Emit(step: Step)
      requires Valid()
      modifies this
      ensures Valid() && steps == old(steps) + [step.(order := old(order) + 1)]
    {
      order := order + 1;
      steps := steps + [step.(order := order)];
    }

    /** In place: the body of one step. */
    method SetBody(k: nat, body: string)
      requires Valid() && k < |steps|
      modifies this
      ensures Valid() && steps == old(steps)[k := old(steps)[k].(body := body)]
    {
      steps := steps[k := steps[k].(body := body)];
    }

    /** In place: number and name of one step. */
    method Renumber(k: nat)
      requires Valid() && k < |steps|
      modifies this
      ensures Valid() && steps == old(steps)[k := old(steps)[k].(order := k + 1, id := StepId(k + 1))]
    {
      steps := steps[k := steps[k].(order := k + 1, id := StepId(k + 1))];
    }
  }

  /** The rounds of all commands. */
  method EmitRounds(tracer: Tracer, job: Job)
    requires tracer.Valid() && tracer.steps == [] && job.commands != []
    modifies tracer
    ensures tracer.Valid() && tracer.steps == Rounds(job, |job.commands|)
  {
    hide Strip, Narrative, StepId, CallId;
    tracer.Emit(ThoughtStep(job, 0, 0));
    for c := 0 to |job.commands|
      invariant tracer.Valid() && tracer.steps == Rounds(job, c)
    {
      ghost var before := tracer.steps;
      var at := tracer.order;
      tracer.Emit(CallStep(job, c, tracer.order));
      tracer.Emit(ResultStep(job, c, tracer.order));
      if c < 3 { tracer.Emit(ThoughtStep(job, c, tracer.order)); }
      assert tracer.steps == before + Round(job, c, at);
    }
  }

  /** Whether some result already is a short piece of the log. */
  method HasAnchor(steps: seq<Step>, log: string) returns (found: bool)
    ensures found <==> exists i :: 0 <= i < |steps| && Anchors(steps[i], log)
  {
    for i := 0 to |steps|
      invariant forall j :: 0 <= j < i ==> !Anchors(steps[j], log)
    {
      if Anchors(steps[i], log) { return true; }
    }
    return false;
  }

  predicate Anchors(s: Step, log: string) { s.kind.Result? && AnchorLength(s.body) && Contains(log, s.body) }

  /** The search for a window. It is the beginning of the text whenever it finds one. */
  method FindWindow(body: string, log: string) returns (window: string)
    requires Contains(log, body) && (body != "" ==> !IsSpace(body[0]))
    ensures !AnchorLength(body) ==> window == Window(body)
  {
    window := if |body| > 80 then body[..80] else body;
    var limit := if |body| > 12 then |body| - 11 else 1;
    for lo := 0 to limit
      invariant lo > 0 ==> |body| < 12
      invariant window == Window(body)
    {
      if lo <= |body| {
        var cand := body[lo..if lo + 80 < |body| then lo + 80 else |body|];
        if AnchorLength(cand) && Contains(log, cand) && cand[0] != ' ' {
          window := cand;
          break;
        }
        if lo == 0 && |body| >= 12 {
          SliceContained(body, 0, |cand|);
          ContainsTransitive(log, body, cand);
        }
      }
    }
  }

  /** Where the last result stands, from behind. */
  method FindLastResult(steps: seq<Step>) returns (k: nat)
    requires exists i :: 0 <= i < |steps| && steps[i].kind.Result?
    ensures k < |steps| && steps[k].kind.Result? && forall i :: k < i < |steps| ==> !steps[i].kind.Result?
  {
    k := |steps| - 1;
    while !steps[k].kind.Result?
      invariant k < |steps| && forall i :: k < i < |steps| ==> !steps[i].kind.Result?
      decreases k
    {
      assert exists i :: 0 <= i < |steps| && i < k && steps[i].kind.Result?;
      k := k - 1;
    }
  }

  lemma LastResultIs(job: Job)
    requires job.commands != []
    ensures var steps := Rounds(job, |job.commands|);
            var k := LastResult(job);
            && k < |steps| && steps[k].kind.Result?
            && forall i :: k < i < |steps| ==> !steps[i].kind.Result?
  {
    hide Strip, Narrative, StepId, CallId;
  }

  /** The anchor step of the builder. */
  method Anchor(tracer: Tracer, job: Job)
    requires tracer.Valid() && job.commands != [] && tracer.steps == Rounds(job, |job.commands|)
    modifies tracer
    ensures tracer.Valid() && tracer.steps == WithAnchor(job)
  {
    hide Strip, Narrative, StepId, CallId, Contains, Rounds, Window;
    ghost var n := |job.commands|;
    RoundsFrom(job, n);
    LastResultIs(job);
    StripContained(job.log);
    StripEnds(job.log);
    var found := HasAnchor(tracer.steps, job.log);
    AnchoredIff(job);
    if !found {
      var window := FindWindow(Strip(job.log), job.log);
      var k := FindLastResult(tracer.steps);
      tracer.SetBody(k, window);
    }
  }

  /** All results carry the whole stripped log, so one anchors exactly if that is short enough. */
  lemma AnchoredIff(job: Job)
    requires job.commands != []
    ensures var steps := Rounds(job, |job.commands|);
            (exists i :: 0 <= i < |steps| && Anchors(steps[i], job.log)) <==> AnchorLength(Strip(job.log))
  {
    hide Strip, Narrative, StepId, CallId, Contains, Rounds;
    var steps := Rounds(job, |job.commands|);
    RoundsFrom(job, |job.commands|);
    LastResultIs(job);
    StripContained(job.log);
    assert forall i :: 0 <= i < |steps| ==> FromRounds(steps[i], job, |job.commands|);
    if AnchorLength(Strip(job.log)) { assert Anchors(steps[LastResult(job)], job.log); }
  }

  // --- the final checks ---

  predicate PairingOk(steps: seq<Step>) {
    Count(steps, Call) > 0 && Count(steps, Call) == Count(steps, Result)
  }

  predicate FollowingOk(steps: seq<Step>) {
    forall i :: 0 <= i < |steps| && steps[i].kind.Result? ==> i > 0 && steps[i - 1].kind.Call?
  }

  predicate ThoughtsOk(steps: seq<Step>) {
    Count(steps, Thought) >= 3 && forall s :: s in steps && s.kind.Thought? ==> |s.body| >= 80
  }

  predicate CostOk(steps: seq<Step>) { Cost(steps) >= 0.01 }

  predicate AnchorOk(steps: seq<Step>, log: string) {
    exists i :: 0 <= i < |steps| && Anchors(steps[i], log)
  }

  lemma {:induction false} SameKinds(a: seq<Step>, b: seq<Step>, kind: Kind)
    requires |a| == |b| && forall i :: 0 <= i < |a| ==> a[i].kind == b[i].kind
    ensures Count(a, kind) == Count(b, kind)
  {
    if a != [] { SameKinds(a[..|a| - 1], b[..|b| - 1], kind); }
  }

  lemma {:induction false} FreeSteps(steps: seq<Step>)
    requires forall s :: s in steps ==> s.cost == 0.0
    ensures Cost(steps) == 0.0
  {
    if steps != [] { FreeSteps(steps[..|steps| - 1]); }
  }

  /** The anchored steps are the rounds but for one body. */
  lemma AnchoredKinds(job: Job)
    requires job.commands != []
    ensures var steps := Rounds(job, |job.commands|);
            var anchored := WithAnchor(job);
            && |anchored| == |steps|
            && forall i :: 0 <= i < |steps| ==>
                 anchored[i] == steps[i].(body := anchored[i].body)
                 && (steps[i].kind.Result? || anchored[i] == steps[i])
  {
    hide Strip, Narrative, StepId, CallId, Rounds, Window, LastResult;
    LastResultIs(job);
  }

  /** What the bodies of the results are. */
  lemma AnchoredBodies(job: Job)
    requires job.commands != []
    ensures forall s :: s in WithAnchor(job) && s.kind.Result? ==>
              s.body == Strip(job.log) || (s.body == Window(Strip(job.log)) && !AnchorLength(Strip(job.log)))
    ensures forall s :: s in WithAnchor(job) && s.kind.Thought? ==> |s.body| >= 80
    ensures forall s :: s in WithAnchor(job) ==> s.cost == 0.0
  {
    hide Strip, Narrative, StepId, CallId, Rounds, Window, LastResult;
    RoundsFrom(job, |job.commands|);
    LastResultIs(job);
    var steps := Rounds(job, |job.commands|);
    assert forall i :: 0 <= i < |steps| ==> FromRounds(steps[i], job, |job.commands|);
  }

  lemma TraceCounts(job: Job)
    requires job.commands != []
    ensures var t := Trace(job); var n := |job.commands|;
            Count(t, Call) == n && Count(t, Result) == n && Count(t, Thought) == 1 + Min(n, 3)
  {
    hide Strip, Narrative, StepId, CallId, Rounds, WithAnchor;
    AnchoredKinds(job);
    RoundsCounts(job, |job.commands|);
    var a := WithAnchor(job);
    var last := [ArtifactStep(job, |a|), DecisionStep(job, |a| + 1)];
    forall kind ensures Count(a, kind) == Count(Rounds(job, |job.commands|), kind) {
      SameKinds(a, Rounds(job, |job.commands|), kind);
    }
    assert last == [ArtifactStep(job, |a|)] + [DecisionStep(job, |a| + 1)];
    forall kind: Kind | kind == Call || kind == Result || kind == Thought ensures Count(a + last, kind) == Count(a, kind) {
      CountOne(ArtifactStep(job, |a|), kind);
      CountOne(DecisionStep(job, |a| + 1), kind);
      CountConcat([ArtifactStep(job, |a|)], [DecisionStep(job, |a| + 1)], kind);
      CountConcat(a, last, kind);
    }
  }

  lemma PairedKinds(a: seq<Step>, b: seq<Step>)
    requires Paired(a) && |a| == |b|
    requires forall i :: 0 <= i < |a| ==> a[i].kind == b[i].kind && a[i].callId == b[i].callId
    ensures Paired(b)
  {}

  /** The shape of every trace: numbered and timed without gaps, results directly after their calls,
      distinct call ids. */
  lemma TraceShape(job: Job)
    requires job.commands != []
    ensures Numbered(Trace(job), job.now) && Paired(Trace(job)) && DistinctCalls(Trace(job))
  {
    hide Strip, Narrative, StepId, CallId, Rounds, WithAnchor;
    AnchoredKinds(job);
    var n := |job.commands|;
    var a := WithAnchor(job);
    RoundsNumbered(job, n);
    RoundsPaired(job, n);
    RoundsDistinct(job, n);
    PairedKinds(Rounds(job, n), a);
    PairedConcat(a, [ArtifactStep(job, |a|), DecisionStep(job, |a| + 1)]);
  }

  lemma TraceCost(job: Job)
    requires job.commands != []
    ensures Cost(Trace(job)) == 0.01
  {
    hide Strip, Narrative, StepId, CallId, Rounds, WithAnchor;
    AnchoredBodies(job);
    var a := WithAnchor(job);
    FreeSteps(a);
    var t := Trace(job);
    assert t[..|t| - 1] == a + [ArtifactStep(job, |a|)];
    assert t[..|t| - 1][..|t| - 2] == a;
  }

  /** There is an anchor exactly if the stripped log has at least twelve characters. */
  lemma TraceAnchor(job: Job)
    requires job.commands != []
    ensures AnchorOk(Trace(job), job.log) <==> |Strip(job.log)| >= 12
  {
    hide Strip, Narrative, StepId, CallId, Rounds, WithAnchor, Contains;
    var body := Strip(job.log);
    var a := WithAnchor(job);
    var t := Trace(job);
    AnchoredBodies(job);
    assert forall i :: 0 <= i < |a| ==> t[i] == a[i] && a[i] in a;
    if |body| >= 12 {
      TraceWindow(job);
      assert Anchors(t[LastResult(job)], job.log);
    }
  }

  lemma TraceWindow(job: Job)
    requires job.commands != [] && |Strip(job.log)| >= 12
    ensures LastResult(job) < |WithAnchor(job)| && Anchors(WithAnchor(job)[LastResult(job)], job.log)
  {
    hide Strip, Narrative, StepId, CallId, Rounds, Contains;
    var body := Strip(job.log);
    LastResultIs(job);
    StripContained(job.log);
    RoundsFrom(job, |job.commands|);
    assert FromRounds(Rounds(job, |job.commands|)[LastResult(job)], job, |job.commands|);
    if |body| > 80 {
      SliceContained(body, 0, 80);
      assert body[0..80] == body[..80];
      ContainsTransitive(job.log, body, body[..80]);
    }
  }

  lemma TraceThoughts(job: Job)
    requires job.commands != []
    ensures ThoughtsOk(Trace(job)) <==> |job.commands| >= 2
  {
    hide Strip, Narrative, StepId, CallId, Rounds, WithAnchor;
    TraceCounts(job);
    AnchoredBodies(job);
  }

  // --- the whole program ---

  /** The first step from `i` on with a banned body. */
  function FirstBanned(steps: seq<Step>, banned: string -> bool, i: nat): Option<nat>
    requires i <= |steps|
    decreases |steps| - i
  {
    if i == |steps| then None
    else if banned(steps[i].body) then Some(i)
    else FirstBanned(steps, banned, i + 1)
  }

  /** How a run ends: a trace is written exactly if there are at least two commands, the stripped
      log has at least twelve characters and no step has a banned body. */
  function OutcomeOf(job: Job, banned: string -> bool): Outcome {
    if Blank(job.log) then EmptyLog
    else if job.commands == [] then NoCommands
    else
      match FirstBanned(Trace(job), banned, 0)
      case Some(k) => BannedStep(k + 1)
      case None =>
        if |job.commands| < 2 then Unsound(Thoughts)
        else if |Strip(job.log)| < 12 then Unsound(LogAnchor)
        else Written(Trace(job))
  }

  /** The loop that renumbers the steps and looks for banned content. */
  method Normalize(tracer: Tracer, job: Job, banned: string -> bool) returns (bad: Option<nat>)
    requires tracer.Valid() && job.commands != [] && tracer.steps == Trace(job)
    modifies tracer
    ensures tracer.Valid() && tracer.steps == Trace(job)
    ensures bad == FirstBanned(Trace(job), banned, 0)
  {
    hide Strip, Narrative, StepId, CallId, Rounds, WithAnchor, Trace;
    TraceShape(job);
    for i := 0 to |tracer.steps|
      invariant tracer.Valid() && tracer.steps == Trace(job)
      invariant FirstBanned(Trace(job), banned, 0) == FirstBanned(Trace(job), banned, i)
    {
      tracer.Renumber(i);
      assert tracer.steps == Trace(job);
      if banned(tracer.steps[i].body) { return Some(i); }
    }
    return None;
  }

  /** `main` */
  method BuildTrace(job: Job, banned: string -> bool) returns (outcome: Outcome)
    ensures outcome == OutcomeOf(job, banned)
  {
    hide Strip, Narrative, StepId, CallId, Rounds, WithAnchor, Contains, FirstBanned;
    if Blank(job.log) { return EmptyLog; }
    if job.commands == [] { return NoCommands; }
    var tracer := new Tracer();
    EmitRounds(tracer, job);
    Anchor(tracer, job);
    tracer.Emit(ArtifactStep(job, tracer.order));
    tracer.Emit(DecisionStep(job, tracer.order));
    assert tracer.steps == Trace(job);
    hide Trace;
    var bad := Normalize(tracer, job, banned);
    if bad.Some? { return BannedStep(bad.value + 1); }
    var steps := tracer.steps;
    ChecksPass(job);
    if !PairingOk(steps) { return Unsound(Pairing); }
    if !FollowingOk(steps) { return Unsound(Following); }
    if !ThoughtsOk(steps) { return Unsound(Thoughts); }
    if !CostOk(steps) { return Unsound(CostFloor); }
    if !AnchorOk(steps, job.log) { return Unsound(LogAnchor); }
    return Written(steps);
  }

  /** Three of the final checks never fail; the other two say what the caller has to provide. */
  lemma ChecksPass(job: Job)
    requires job.commands != []
    ensures var t := Trace(job);
            && PairingOk(t) && FollowingOk(t) && CostOk(t)
            && (ThoughtsOk(t) <==> |job.commands| >= 2)
            && (AnchorOk(t, job.log) <==> |Strip(job.log)| >= 12)
  {
    hide Strip, Narrative, StepId, CallId, Rounds, WithAnchor, Contains, Trace;
    TraceCounts(job);
    TraceShape(job);
    TraceCost(job);
    TraceThoughts(job);
    TraceAnchor(job);
  }

  lemma {:induction false} FirstBannedNone(steps: seq<Step>, banned: string -> bool, i: nat)
    requires i <= |steps|
    ensures FirstBanned(steps, banned, i).None? <==> forall k :: i <= k < |steps| ==> !banned(steps[k].body)
    ensures FirstBanned(steps, banned, i).Some? ==>
              var k := FirstBanned(steps, banned, i).value;
              i <= k < |steps| && banned(steps[k].body) && forall j :: i <= j < k ==> !banned(steps[j].body)
    decreases |steps| - i
  {
    if i < |steps| { FirstBannedNone(steps, banned, i + 1); }
  }

  /** A trace is written exactly if there are two commands, twelve characters of log and no banned
      body, and every written trace is numbered without gaps, carries the k-th command in its k-th call, has each
      result directly after its call under the same distinct id, and quotes the log verbatim. */
  lemma WrittenExactly(job: Job, banned: string -> bool)
    ensures OutcomeOf(job, banned).Written?
       <==> |job.commands| >= 2 && |Strip(job.log)| >= 12
            && forall k :: 0 <= k < |Trace(job)| ==> !banned(Trace(job)[k].body)
    ensures OutcomeOf(job, banned).Written? ==>
              var t := OutcomeOf(job, banned).steps;
              && (forall i :: 0 <= i < |t| ==> t[i].order == i + 1 && t[i].id == "s" + TwoDigits(i + 1)
                                               && t[i].at == job.now + i)
              && Placed(job, t) && Paired(t) && DistinctCalls(t) && AnchorOk(t, job.log)
  {
    hide Strip, Trace, FirstBanned, Paired, DistinctCalls, AnchorOk, Count, Placed, TwoDigits;
    if job.commands != [] {
      FirstBannedNone(Trace(job), banned, 0);
      TraceShape(job);
      TraceAnchor(job);
      TracePlaced(job);
    }
  }

  /** How a run ends otherwise: on an empty log, without commands, at the first banned body, and at last for want of
      thoughts or of an anchor. */
  lemma EndsExactly(job: Job, banned: string -> bool)
    ensures OutcomeOf(job, banned) == EmptyLog <==> Strip(job.log) == ""
    ensures OutcomeOf(job, banned) == NoCommands <==> Strip(job.log) != "" && job.commands == []
    ensures forall k: nat ::
              OutcomeOf(job, banned) == BannedStep(k)
              <==> && Strip(job.log) != "" && job.commands != [] && 1 <= k <= |Trace(job)|
                   && banned(Trace(job)[k - 1].body) && forall j :: 0 <= j < k - 1 ==> !banned(Trace(job)[j].body)
    ensures OutcomeOf(job, banned) == Unsound(Thoughts)
       <==> Strip(job.log) != "" && |job.commands| == 1 && NothingBanned(job, banned)
    ensures OutcomeOf(job, banned) == Unsound(LogAnchor)
       <==> 1 <= |Strip(job.log)| <= 11 && |job.commands| >= 2 && NothingBanned(job, banned)
  {
    hide Strip, Trace, FirstBanned;
    if job.commands != [] { FirstBannedNone(Trace(job), banned, 0); }
  }

  ghost predicate NothingBanned(job: Job, banned: string -> bool) {
    job.commands != [] && forall k :: 0 <= k < |Trace(job)| ==> !banned(Trace(job)[k].body)
  }
}
