/** Which step stands where in a trace. */
module TracePlaces {
  import opened Text
  import opened TraceSteps
  import opened TraceBuilder

  /** A two-digit number: its decimal digits, with a zero in front of a single one. */
  lemma TwoDigitsMeans(n: nat)
    ensures Digits(TwoDigits(n)) && DigitsValue(TwoDigits(n)) == n && |TwoDigits(n)| >= 2
    ensures |TwoDigits(n)| > 2 ==> TwoDigits(n)[0] != '0'
  {
    DecimalMeans(n);
    if n < 10 {
      var d := Decimal(n);
      assert ("0" + d)[..1] == "0" && "0"[..0] == "" && d[..0] == "";
    } else {
      LeadingDigit(n);
    }
  }

  /** Where the step of a command stands: two steps for each command before it, and a thought for the first three. */
  function CallPlace(c: nat): nat { 1 + 2 * c + if c < 3 then c else 3 }

  lemma {:induction false} RoundsPlace(job: Job, n: nat)
    requires job.commands != [] && n <= |job.commands|
    ensures |Rounds(job, n)| == CallPlace(n)
  {
    hide ThoughtStep, CallStep, ResultStep;
    if n > 0 { RoundsPlace(job, n - 1); }
  }

  lemma {:induction false} RoundsKeep(job: Job, n: nat, m: nat)
    requires job.commands != [] && n <= m <= |job.commands|
    ensures |Rounds(job, n)| <= |Rounds(job, m)| && Rounds(job, m)[..|Rounds(job, n)|] == Rounds(job, n)
    decreases m
  {
    hide ThoughtStep, CallStep, ResultStep, Round;
    if n < m {
      RoundsKeep(job, n, m - 1);
      var before := Rounds(job, m - 1);
      Slices(before, Round(job, m - 1, |before|), |Rounds(job, n)|);
    }
  }

  /** The steps of a command. */
  lemma RoundAt(job: Job, c: nat, n: nat)
    requires c < n <= |job.commands|
    ensures var p := CallPlace(c);
            && CallPlace(c + 1) <= |Rounds(job, n)|
            && Rounds(job, n)[p] == CallStep(job, c, p) && Rounds(job, n)[p + 1] == ResultStep(job, c, p + 1)
            && (c < 3 ==> Rounds(job, n)[p + 2] == ThoughtStep(job, c, p + 2))
  {
    hide ThoughtStep, CallStep, ResultStep;
    RoundsPlace(job, c);
    RoundsPlace(job, c + 1);
    RoundsKeep(job, c + 1, n);
    var p := CallPlace(c);
    var some := Rounds(job, c + 1);
    assert some[p] == CallStep(job, c, p) && some[p + 1] == ResultStep(job, c, p + 1);
    assert forall i :: 0 <= i < |some| ==> Rounds(job, n)[i] == some[i];
  }

  /** The call of a command, under its number. */
  predicate CallPlaced(job: Job, t: seq<Step>, c: nat)
    requires c < |job.commands|
  {
    var p := CallPlace(c);
    && p + 1 < |t| && t[p].kind.Call? && t[p].command == job.commands[c] && t[p].callId == "tc" + TwoDigits(c + 1)
    && t[p].cost == 0.0 && t[p].body == ""
  }

  /** The result of a command: the log; the last one is cut to eighty characters when the log is longer. */
  predicate ResultPlaced(job: Job, t: seq<Step>, c: nat)
    requires c < |job.commands|
  {
    var p := CallPlace(c) + 1;
    && p < |t| && t[p].kind.Result? && t[p].callId == "tc" + TwoDigits(c + 1) && t[p].cost == 0.0 && t[p].command == ""
    && t[p].body == if c == |job.commands| - 1 && |Strip(job.log)| > 80 then Strip(job.log)[..80] else Strip(job.log)
  }

  /** A thought at a place. */
  predicate ThoughtPlaced(job: Job, t: seq<Step>, k: nat, p: nat)
    requires job.commands != [] && k < 3
  {
    p < |t| && t[p].kind.Thought? && t[p].body == Narrative(job, k) && t[p].cost == 0.0
  }

  /** The whole trace: the opening thought; for each command its call, its result, and for the first three a
      thought; the artifact; the decision, which alone costs something. */
  ghost predicate Placed(job: Job, t: seq<Step>)
    requires job.commands != []
  {
    var n := |job.commands|;
    && |t| == CallPlace(n) + 2
    && ThoughtPlaced(job, t, 0, 0)
    && (forall c :: 0 <= c < n ==> CallPlaced(job, t, c) && ResultPlaced(job, t, c))
    && (forall c :: 0 <= c < n && c < 3 ==> ThoughtPlaced(job, t, c, CallPlace(c) + 2))
    && t[|t| - 2].kind.Artifact? && t[|t| - 2].path == job.path && t[|t| - 2].cost == 0.0
    && t[|t| - 2].body == "Result artifact " + job.path + " written and verified."
    && t[|t| - 1].kind.Decision? && t[|t| - 1].cost == 0.01 && t[|t| - 1].body == DECISION_TEXT
  }

  lemma LastPlace(job: Job)
    requires job.commands != []
    ensures LastResult(job) == CallPlace(|job.commands| - 1) + 1
  {
    hide Rounds;
    RoundsPlace(job, |job.commands| - 1);
  }

  lemma AnchoredAt(job: Job, c: nat)
    requires c < |job.commands|
    ensures |WithAnchor(job)| == CallPlace(|job.commands|) && ThoughtPlaced(job, WithAnchor(job), 0, 0)
    ensures CallPlaced(job, WithAnchor(job), c) && ResultPlaced(job, WithAnchor(job), c)
    ensures c < 3 ==> ThoughtPlaced(job, WithAnchor(job), c, CallPlace(c) + 2)
  {
    hide Rounds, Narrative, Strip, StepId, TwoDigits;
    var n := |job.commands|;
    var k := LastResult(job);
    LastPlace(job);
    RoundsPlace(job, n);
    RoundAt(job, c, n);
    RoundAt(job, n - 1, n);
    FirstThought(job, n);
    PlacesApart(c, n - 1);
    LastWindow(Strip(job.log));
  }

  lemma LastWindow(body: string)
    ensures AnchorLength(body) ==> |body| <= 80
    ensures Window(body) == if |body| > 80 then body[..80] else body
  {}

  lemma FirstThought(job: Job, n: nat)
    requires job.commands != [] && n <= |job.commands|
    ensures Rounds(job, n)[0] == ThoughtStep(job, 0, 0)
  {
    hide ThoughtStep, Round;
    RoundsKeep(job, 0, n);
    assert Rounds(job, 0)[0] == ThoughtStep(job, 0, 0);
    assert Rounds(job, n)[0] == Rounds(job, n)[..1][0];
  }

  lemma PlacesApart(c: nat, d: nat)
    requires c <= d
    ensures c < d ==> CallPlace(c) + 2 <= CallPlace(d) && (c < 3 ==> CallPlace(c) + 3 <= CallPlace(d))
  {}

  lemma TracePlaced(job: Job)
    requires job.commands != []
    ensures Placed(job, Trace(job))
  {
    hide WithAnchor, Narrative, Strip, TwoDigits, StepId, DECISION_TEXT;
    var a, t := WithAnchor(job), Trace(job);
    var n := |job.commands|;
    AnchoredAt(job, 0);
    forall c: nat | c < n
      ensures CallPlaced(job, t, c) && ResultPlaced(job, t, c)
      ensures c < 3 ==> ThoughtPlaced(job, t, c, CallPlace(c) + 2)
    {
      AnchoredAt(job, c);
    }
  }
}
