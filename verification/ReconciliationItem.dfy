/** One platform attempt turned into a typed reconciliation item. */
module ReconciliationItem {
  import opened Text
  import opened PlatformJson

  datatype Error =
    | NotAnObject
    | BadField(name: string)
    | OtherChallenge
    | OtherAttempt
    | DuplicateAttempt
    | BlankIdentity
    | NegativePosition
    | ScoreRange(name: string)
    | UnhashableMode

  /** The one error that is no `ValueError`: a `TypeError` nobody catches. */
  predicate Caught(e: Error) { !e.UnhashableMode? }

  // --- anti-cheat signals ---

  datatype Signal = Signal(name: string, weight: real, availability: string)

  const MODE := "weighted_three_signals"

  /** One signal, normalised on its own. */
  function NormalSignal(lib: Library, v: Json): Option<Signal> {
    if !v.Obj? then None
    else
      var name := Get(v.fields, "name");
      var weight := Number(Get(v.fields, "weight"));
      if !name.Str? || Blank(name.s) || weight.None? || weight.value < 0.0 then None
      else
        var availability := Evidence(lib, Get(v.fields, "availability"));
        Some(Signal(Strip(name.s), weight.value,
                    if availability.Some? then availability.value else "unavailable"))
  }

  predicate DistinctNames(signals: seq<Signal>) {
    forall i, j :: 0 <= i < j < |signals| ==> signals[i].name != signals[j].name
  }

  predicate AllNormal(lib: Library, signals: seq<Json>) {
    forall v :: v in signals ==> NormalSignal(lib, v).Some?
  }

  function Normals(lib: Library, signals: seq<Json>): (ns: seq<Signal>)
    requires AllNormal(lib, signals)
    ensures |ns| == |signals| && forall i :: 0 <= i < |ns| ==> ns[i] == NormalSignal(lib, signals[i]).value
  {
    seq(|signals|, i requires 0 <= i < |signals| => NormalSignal(lib, signals[i]).value)
  }

  predicate GoodSignals(lib: Library, signals: seq<Json>) {
    && |signals| == 3 && AllNormal(lib, signals)
    && DistinctNames(Normals(lib, signals))
    && exists i :: 0 <= i < 3 && Normals(lib, signals)[i].weight != 0.0
  }

  /** The accepted signals. */
  function SignalsOf(lib: Library, signals: seq<Json>): Option<seq<Signal>> {
    if GoodSignals(lib, signals) then Some(Normals(lib, signals)) else None
  }

  /** What the loop holds after some signals. */
  ghost predicate Gathered(lib: Library, given: seq<Json>, names: set<string>, normalized: seq<Signal>) {
    && AllNormal(lib, given) && normalized == Normals(lib, given) && DistinctNames(normalized)
    && forall n :: n in names <==> exists j :: 0 <= j < |normalized| && normalized[j].name == n
  }

  lemma GatherMore(lib: Library, given: seq<Json>, names: set<string>, normalized: seq<Signal>, v: Json)
    requires Gathered(lib, given, names, normalized) && NormalSignal(lib, v).Some?
    requires NormalSignal(lib, v).value.name !in names
    ensures var s := NormalSignal(lib, v).value;
            Gathered(lib, given + [v], names + {s.name}, normalized + [s])
  {
    hide NormalSignal;
    var s := NormalSignal(lib, v).value;
    var more := normalized + [s];
    assert AllNormal(lib, given + [v]);
    assert Normals(lib, given + [v]) == more;
    forall n ensures n in names + {s.name} <==> exists j :: 0 <= j < |more| && more[j].name == n {
      if j :| 0 <= j < |normalized| && normalized[j].name == n { assert more[j].name == n; }
      if n == s.name { assert more[|normalized|].name == n; }
    }
  }

  /** A signal that repeats a name spoils the whole list. */
  lemma Repeated(lib: Library, signals: seq<Json>, i: nat, names: set<string>, normalized: seq<Signal>)
    requires i < |signals| && Gathered(lib, signals[..i], names, normalized)
    requires NormalSignal(lib, signals[i]).Some? && NormalSignal(lib, signals[i]).value.name in names
    ensures SignalsOf(lib, signals) == None
  {
    hide NormalSignal;
    if AllNormal(lib, signals) {
      var ns := Normals(lib, signals);
      var j :| 0 <= j < i && normalized[j].name == ns[i].name;
      assert ns[j].name == ns[i].name;
    }
  }

  lemma AllGathered(lib: Library, signals: seq<Json>, names: set<string>, normalized: seq<Signal>)
    requires Gathered(lib, signals, names, normalized)
    ensures SignalsOf(lib, signals)
         == if |normalized| == 3 && (exists i :: 0 <= i < 3 && normalized[i].weight != 0.0) then Some(normalized) else None
  {
    hide NormalSignal;
  }

  method AllZero(signals: seq<Signal>) returns (zero: bool)
    ensures zero <==> forall j :: 0 <= j < |signals| ==> signals[j].weight == 0.0
  {
    zero := true;
    for i := 0 to |signals|
      invariant zero <==> forall j :: 0 <= j < i ==> signals[j].weight == 0.0
    {
      zero := zero && signals[i].weight == 0.0;
    }
  }

  /** The loop of `_valid_anti_cheat`. */
  method NormalizeSignals(lib: Library, signals: seq<Json>) returns (r: Option<seq<Signal>>)
    ensures r == SignalsOf(lib, signals)
  {
    hide Gathered, NormalSignal;
    var normalized: seq<Signal> := [];
    var names: set<string> := {};
    GatherNone(lib);
    for i := 0 to |signals|
      invariant Gathered(lib, signals[..i], names, normalized)
    {
      assert signals[..i + 1] == signals[..i] + [signals[i]];
      var signal := NormalSignal(lib, signals[i]);
      if signal.None? {
        assert signals[i] in signals;
        return None;
      }
      if signal.value.name in names {
        Repeated(lib, signals, i, names, normalized);
        return None;
      }
      GatherMore(lib, signals[..i], names, normalized, signals[i]);
      names := names + {signal.value.name};
      normalized := normalized + [signal.value];
    }
    assert signals[..|signals|] == signals;
    AllGathered(lib, signals, names, normalized);
    var zero := AllZero(normalized);
    if |normalized| != 3 || zero { return None; }
    return Some(normalized);
  }

  lemma GatherNone(lib: Library)
    ensures Gathered(lib, [], {}, [])
  {}

  /** `_valid_anti_cheat`: nothing, the signals, or a `TypeError` for a mode that cannot be hashed. */
  function AntiCheat(lib: Library, v: Json): Result<Option<seq<Signal>>, Error> {
    if !v.Obj? then Ok(None)
    else
      var mode := Get(v.fields, "mode");
      var signals := Get(v.fields, "signals");
      if mode.Arr? || mode.Obj? then Err(UnhashableMode)
      else if !(mode == Str(MODE) || mode == Str("weightedThreeSignals")) || !signals.Arr? then Ok(None)
      else Ok(SignalsOf(lib, signals.items))
  }

  /** What the normaliser emits, as JSON again. */
  function SignalJson(s: Signal, shown: real -> string): Json {
    Obj(map["name" := Str(s.name), "weight" := Num(s.weight, shown(s.weight)), "availability" := Str(s.availability)])
  }

  function AntiCheatJson(signals: seq<Signal>, shown: real -> string): Json {
    Obj(map["mode" := Str(MODE),
            "signals" := Arr(seq(|signals|, i requires 0 <= i < |signals| => SignalJson(signals[i], shown)))])
  }

  /** Lower-casing leaves the five evidence words alone. */
  predicate KeepsWords(lib: Library) {
    forall w :: w in STATUSES ==> lib.lower(w) == w
  }

  lemma WordsStripped(w: string)
    requires w in STATUSES
    ensures Strip(w) == w && w != ""
  {
    assert !IsSpace(w[0]) && !IsSpace(w[|w| - 1]);
  }

  lemma SignalFields(s: Signal, shown: real -> string)
    ensures var again := SignalJson(s, shown).fields;
            && Get(again, "name") == Str(s.name)
            && Get(again, "weight") == Num(s.weight, shown(s.weight))
            && Get(again, "availability") == Str(s.availability)
  {}

  predicate NormalForm(s: Signal) {
    s.weight >= 0.0 && s.availability in STATUSES && s.name != "" && Strip(s.name) == s.name
  }

  lemma IsNormalForm(lib: Library, v: Json)
    requires NormalSignal(lib, v).Some?
    ensures NormalForm(NormalSignal(lib, v).value)
  {
    StripTwice(Get(v.fields, "name").s);
  }

  lemma NormalFormKept(lib: Library, s: Signal, shown: real -> string)
    requires KeepsWords(lib) && NormalForm(s)
    ensures NormalSignal(lib, SignalJson(s, shown)) == Some(s)
  {
    hide Strip, Get;
    SignalFields(s, shown);
    WordsStripped(s.availability);
    assert lib.lower(s.availability) == s.availability;
  }

  lemma AntiCheatFields(signals: seq<Signal>, shown: real -> string)
    ensures var again := AntiCheatJson(signals, shown);
            && Get(again.fields, "mode") == Str(MODE)
            && Get(again.fields, "signals")
               == Arr(seq(|signals|, i requires 0 <= i < |signals| => SignalJson(signals[i], shown)))
  {}

  lemma EmittedAgain(lib: Library, signals: seq<Signal>, shown: real -> string)
    requires KeepsWords(lib) && forall i :: 0 <= i < |signals| ==> NormalForm(signals[i])
    ensures var emitted := seq(|signals|, i requires 0 <= i < |signals| => SignalJson(signals[i], shown));
            AllNormal(lib, emitted) && Normals(lib, emitted) == signals
  {
    hide NormalForm, NormalSignal, KeepsWords;
    var emitted := seq(|signals|, i requires 0 <= i < |signals| => SignalJson(signals[i], shown));
    forall i | 0 <= i < |signals| ensures NormalSignal(lib, emitted[i]) == Some(signals[i]) {
      NormalFormKept(lib, signals[i], shown);
    }
  }

  /** Accepted evidence consists of three distinctly named signals of non-negative weight, not all
      zero, and is accepted again as it is. */
  lemma AntiCheatNormal(lib: Library, v: Json, shown: real -> string)
    requires KeepsWords(lib)
    requires AntiCheat(lib, v).Ok? && AntiCheat(lib, v).value.Some?
    ensures var signals := AntiCheat(lib, v).value.value;
            && |signals| == 3 && DistinctNames(signals)
            && (forall i :: 0 <= i < 3 ==> NormalForm(signals[i]))
            && (exists i :: 0 <= i < 3 && signals[i].weight != 0.0)
            && AntiCheat(lib, AntiCheatJson(signals, shown)) == Ok(Some(signals))
  {
    hide NormalSignal, NormalForm, Get;
    var given := Get(v.fields, "signals").items;
    var signals := AntiCheat(lib, v).value.value;
    forall i | 0 <= i < 3 ensures NormalForm(signals[i]) {
      assert given[i] in given;
      IsNormalForm(lib, given[i]);
    }
    EmittedAgain(lib, signals, shown);
    AntiCheatFields(signals, shown);
  }

  // --- the other readings ---

  /** `_owner` */
  function Owner(lib: Library, v: Json): Option<string> {
    var w := if v.Obj? then First(v.fields, ["id", "name", "username", "handle"]) else v;
    if w == Null || w == Str("") then None else Some(ToString(lib, w))
  }

  const UNIFIED := "unified_overall_and_season"

  /** `_scope` */
  function Scope(lib: Library, v: Json): Option<string> {
    if v.Str? && lib.lower(Strip(v.s)) in [UNIFIED, "unifiedoverallandseason"] then Some(UNIFIED) else None
  }

  const RESCORES: seq<string> := ["not_applicable", "pending", "completed", "failed"]

  /** `_rescore` */
  function Rescore(lib: Library, v: Json): Option<string> {
    if v.Str? && lib.lower(Strip(v.s)) in RESCORES then Some(lib.lower(Strip(v.s))) else None
  }

  datatype Basis = Basis(subject: string, reason: string, rewritten: real)

  function Abs(x: real): real { if x < 0.0 then -x else x }

  const EPSILON := 0.000000001

  /** `_complete_penalty`: the basis when the penalty is fully evidenced. */
  function CompletePenalty(rawScore: Option<real>, effective: Option<real>, penalty: Option<real>, applied: bool,
                           basis: Json): Option<Basis> {
    if !applied || rawScore.None? || effective.None? then None
    else if penalty != Some(-1.0) || Abs(effective.value - (rawScore.value - 1.0)) > EPSILON then None
    else if !basis.Obj? then None
    else
      var subject := Get(basis.fields, "object");
      var reason := Get(basis.fields, "reason");
      var rewritten := Number(Get(basis.fields, "rewritten_score"));
      if !subject.Str? || Blank(subject.s) || !reason.Str? || Blank(reason.s) || rewritten.None?
         || Abs(rewritten.value - effective.value) > EPSILON then None
      else Some(Basis(Strip(subject.s), Strip(reason.s), rewritten.value))
  }

  /** A penalised observation costs one point, within the tolerance, in both scores. */
  lemma PenaltyIsOnePoint(rawScore: Option<real>, effective: Option<real>, penalty: Option<real>, applied: bool,
                          basis: Json)
    requires CompletePenalty(rawScore, effective, penalty, applied, basis).Some?
    ensures applied && penalty == Some(-1.0) && rawScore.Some? && effective.Some?
    ensures var b := CompletePenalty(rawScore, effective, penalty, applied, basis).value;
            && Abs(effective.value - (rawScore.value - 1.0)) <= EPSILON
            && Abs(b.rewritten - (rawScore.value - 1.0)) <= 2.0 * EPSILON
            && b.subject != "" && b.reason != ""
  {}

  datatype ChallengePage = ChallengePage(challenge: string, mySubmissions: string, leaderboard: string,
                                         shareRoute: Option<string>, shareRouteStatus: string, attachment: string)

  function Section(lib: Library, fields: map<string, Json>, keys: seq<string>): string {
    var e := Evidence(lib, NestedFirst(lib, fields, keys));
    if e.Some? then e.value else "unavailable"
  }

  function ShareRoute(lib: Library, fields: map<string, Json>): Option<string> {
    var v := NestedFirst(lib, fields, ["share_route", "shareRoute"]);
    if v == Null || v == Str("") then None else Some(Strip(ToString(lib, v)))
  }

  function ShareRouteStatus(route: Option<string>): string {
    if route.Some? && route.value != "" then "present" else "unavailable"
  }

  /** `_challenge_page_evidence`: the page, and whether its share route agrees with its status. */
  function PageEvidence(lib: Library, response: map<string, Json>): (Option<ChallengePage>, bool) {
    var v := NestedFirst(lib, response, ["challenge_page", "challengePage"]);
    if !v.Obj? then (None, true)
    else
      var route := ShareRoute(lib, v.fields);
      var status := ShareRouteStatus(route);
      var given := Evidence(lib, NestedFirst(lib, v.fields, ["share_route_status", "shareRouteStatus"]));
      if given.Some? && given.value != status then (None, false)
      else
        (Some(ChallengePage(Section(lib, v.fields, ["challenge_section", "challengeSection"]),
                            Section(lib, v.fields, ["my_submissions_section", "mySubmissionsSection"]),
                            Section(lib, v.fields, ["leaderboard_section", "leaderboardSection"]),
                            route, status,
                            Section(lib, v.fields, ["attachment_status", "attachmentStatus"]))), true)
  }

  // --- one item ---

  /** Everything `build_reconciliation_item` reads from a response. */
  datatype Reading = Reading(
    replay: string, results: string, scorecard: string, leaderboard: string,
    reward: Json, trace: Option<real>, rawScore: Option<real>, effective: Option<real>,
    penalty: Option<real>, penaltyApplied: bool, basis: Option<Basis>,
    owner: Option<string>, scope: Option<string>, bundle: Option<string>, rescore: Option<string>,
    traceEvidence: Option<string>, antiCheat: Option<seq<Signal>>,
    page: Option<ChallengePage>, pageConsistent: bool, anonymousClosed: bool)

  function Bundle(lib: Library, v: Json): Option<string> {
    if v == Null || v == Str("") then None else Some(ToString(lib, v))
  }

  function Read(lib: Library, f: map<string, Json>, antiCheat: Option<seq<Signal>>): Reading {
    var rawScore := Number(NestedFirst(lib, f, ["raw_score", "rawScore", "original_score", "originalScore"]));
    var effective :=
      Number(NestedFirst(lib, f, ["effective_score", "effectiveScore", "credited_score", "creditedScore"]));
    var penalty := Number(NestedFirst(lib, f, ["penalty", "penaltyDelta", "penalty_delta"]));
    var applied := Flag(lib, NestedFirst(lib, f, ["penalty_applied", "penaltyApplied", "penalized"]));
    var basis := CompletePenalty(rawScore, effective, penalty, applied,
                                 NestedFirst(lib, f, ["penalty_basis", "penaltyBasis", "penalty_reason"]));
    var (page, consistent) := PageEvidence(lib, f);
    Reading(
      Status(lib, NestedFirst(lib, f, ["harbor_replay_executed", "harborReplayExecuted", "replay_executed",
                                       "replayExecuted", "replay"])),
      Status(lib, First(f, ["resultsJson", "results_json", "results"])),
      Status(lib, First(f, ["scorecard", "scoringDetails", "scoring_details"])),
      Status(lib, First(f, ["leaderboard", "leaderboard_status", "rank", "leaderboardEntry"])),
      NestedFirst(lib, f, ["harbor_reward", "harborReward", "reward"]),
      Number(NestedFirst(lib, f, ["trace_score", "traceScore"])),
      rawScore, effective, penalty, applied, basis,
      Owner(lib, NestedFirst(lib, f, ["credited_owner", "creditedOwner", "owner", "agent", "user"])),
      Scope(lib, NestedFirst(lib, f, ["leaderboard_scope", "leaderboardScope", "scope"])),
      Bundle(lib, NestedFirst(lib, f, ["bundle_revision", "bundleRevision", "bundle_hash", "bundleHash"])),
      Rescore(lib, NestedFirst(lib, f, ["rescore_status", "rescoreStatus", "bundle_rescore_status"])),
      Evidence(lib, NestedFirst(lib, f, ["trace_evidence", "traceEvidence", "execution_trace", "executionTrace"])),
      antiCheat, page, consistent,
      NestedFirst(lib, f, ["anonymous_other_submission_access", "anonymousOtherSubmissionAccess"]) == Bool(false))
  }

  predicate ObservationComplete(r: Reading) {
    && r.replay == "present"
    && r.results in ["present", "redacted"]
    && r.scorecard in ["present", "redacted"]
    && r.leaderboard == "present"
    && Number(r.reward).Some? && 0.0 <= Number(r.reward).value <= 1.0
    && (r.trace.Some? ==> 0.0 <= r.trace.value <= 100.0)
    && r.traceEvidence == Some("present")
  }

  predicate PenaltySettled(r: Reading) {
    r.basis.Some? || (!r.penaltyApplied && (r.penalty.None? || r.penalty.value == 0.0))
  }

  predicate OwnerMatches(r: Reading, expected: Option<string>) {
    expected.Some? ==> r.owner == Some(Strip(expected.value))
  }

  /** The condition under which an item is an observation. */
  predicate Complete(r: Reading, expected: Option<string>) {
    && ObservationComplete(r)
    && r.rawScore.Some? && r.effective.Some?
    && PenaltySettled(r)
    && r.owner.Some? && r.scope.Some? && OwnerMatches(r, expected)
    && r.bundle.Some? && r.rescore == Some("completed")
    && r.antiCheat.Some?
    && r.pageConsistent
  }

  datatype Reason =
    | EvidenceIncomplete
    | ScoresUnverified
    | PenaltyUnverified
    | OwnerUnverified
    | OwnerDiffers
    | BundleUnverified
    | AntiCheatUnverified
    | TraceUnverified
    | PageInconsistent

  function ReasonText(r: Reason): (text: string)
    ensures text != ""
  {
    match r
    case EvidenceIncomplete => "replay/results/scorecard/leaderboard evidence incomplete"
    case ScoresUnverified => "raw/effective scores unverified"
    case PenaltyUnverified => "penalty delta and basis unverified"
    case OwnerUnverified => "credited owner or leaderboard scope unverified"
    case OwnerDiffers => "credited owner does not match the expected operator"
    case BundleUnverified => "bundle revision or fresh rescore unverified"
    case AntiCheatUnverified => "weighted anti-cheat evidence unverified"
    case TraceUnverified => "execution trace evidence unverified"
    case PageInconsistent => "challenge page evidence inconsistent"
  }

  /** When a reason applies. */
  predicate Applies(reason: Reason, r: Reading, expected: Option<string>) {
    match reason
    case EvidenceIncomplete => !ObservationComplete(r)
    case ScoresUnverified => r.rawScore.None? || r.effective.None?
    case PenaltyUnverified => !PenaltySettled(r)
    case OwnerUnverified => r.owner.None? || r.scope.None?
    case OwnerDiffers => r.owner.Some? && r.scope.Some? && !OwnerMatches(r, expected)
    case BundleUnverified => r.bundle.None? || r.rescore != Some("completed")
    case AntiCheatUnverified => r.antiCheat.None?
    case TraceUnverified => r.traceEvidence != Some("present")
    case PageInconsistent => !r.pageConsistent
  }

  /** The order in which the reasons are considered. */
  function ReasonAt(k: nat): Reason
    requires k < 9
  {
    match k
    case 0 => EvidenceIncomplete
    case 1 => ScoresUnverified
    case 2 => PenaltyUnverified
    case 3 => OwnerUnverified
    case 4 => OwnerDiffers
    case 5 => BundleUnverified
    case 6 => AntiCheatUnverified
    case 7 => TraceUnverified
    case 8 => PageInconsistent
  }

  /** Those of the first `k` reasons that apply, in their order. */
  function Applying(k: nat, r: Reading, expected: Option<string>): seq<Reason>
    requires k <= 9
  {
    if k == 0 then []
    else if Applies(ReasonAt(k - 1), r, expected) then Applying(k - 1, r, expected) + [ReasonAt(k - 1)]
    else Applying(k - 1, r, expected)
  }

  function Reasons(r: Reading, expected: Option<string>): seq<Reason> { Applying(9, r, expected) }

  lemma {:induction false} ApplyingIn(k: nat, r: Reading, expected: Option<string>, x: Reason)
    requires k <= 9
    ensures x in Applying(k, r, expected) <==> Applies(x, r, expected) && exists i: nat :: i < k && x == ReasonAt(i)
  {
    hide ObservationComplete, PenaltySettled, OwnerMatches, ReasonAt, Applies;
    if k > 0 {
      ApplyingIn(k - 1, r, expected, x);
      if x == ReasonAt(k - 1) { assert exists i: nat :: i < k && x == ReasonAt(i); }
    }
  }

  lemma EveryReason(x: Reason)
    ensures exists i: nat :: i < 9 && x == ReasonAt(i)
  {
    match x
    case EvidenceIncomplete => assert x == ReasonAt(0);
    case ScoresUnverified => assert x == ReasonAt(1);
    case PenaltyUnverified => assert x == ReasonAt(2);
    case OwnerUnverified => assert x == ReasonAt(3);
    case OwnerDiffers => assert x == ReasonAt(4);
    case BundleUnverified => assert x == ReasonAt(5);
    case AntiCheatUnverified => assert x == ReasonAt(6);
    case TraceUnverified => assert x == ReasonAt(7);
    case PageInconsistent => assert x == ReasonAt(8);
  }

  /** The reasons are exactly those that apply. */
  lemma ReasonsIn(r: Reading, expected: Option<string>, x: Reason)
    ensures x in Reasons(r, expected) <==> Applies(x, r, expected)
  {
    ApplyingIn(9, r, expected, x);
    EveryReason(x);
  }

  lemma NextReason(k: nat, reason: Reason, r: Reading, expected: Option<string>, so: seq<Reason>)
    requires k < 9 && reason == ReasonAt(k) && so == Applying(k, r, expected)
    ensures Applying(k + 1, r, expected) == if Applies(reason, r, expected) then so + [reason] else so
  {}

  /** The appends of the source. */
  method CollectReasons(r: Reading, expected: Option<string>) returns (reasons: seq<Reason>)
    ensures reasons == Reasons(r, expected)
  {
    hide ObservationComplete, PenaltySettled, OwnerMatches;
    reasons := [];
    NextReason(0, EvidenceIncomplete, r, expected, reasons);
    if !ObservationComplete(r) { reasons := reasons + [EvidenceIncomplete]; }
    NextReason(1, ScoresUnverified, r, expected, reasons);
    if r.rawScore.None? || r.effective.None? { reasons := reasons + [ScoresUnverified]; }
    NextReason(2, PenaltyUnverified, r, expected, reasons);
    if !PenaltySettled(r) { reasons := reasons + [PenaltyUnverified]; }
    reasons := OwnerReasons(r, expected, reasons);
    reasons := EvidenceReasons(r, expected, reasons);
  }

  method OwnerReasons(r: Reading, expected: Option<string>, before: seq<Reason>) returns (reasons: seq<Reason>)
    requires before == Applying(3, r, expected)
    ensures reasons == Applying(5, r, expected)
  {
    hide ObservationComplete, PenaltySettled, OwnerMatches, Applying;
    reasons := before;
    NextReason(3, OwnerUnverified, r, expected, reasons);
    if r.owner.None? || r.scope.None? {
      reasons := reasons + [OwnerUnverified];
      NextReason(4, OwnerDiffers, r, expected, reasons);
    } else {
      NextReason(4, OwnerDiffers, r, expected, reasons);
      if !OwnerMatches(r, expected) { reasons := reasons + [OwnerDiffers]; }
    }
  }

  method EvidenceReasons(r: Reading, expected: Option<string>, before: seq<Reason>) returns (reasons: seq<Reason>)
    requires before == Applying(5, r, expected)
    ensures reasons == Applying(9, r, expected)
  {
    hide ObservationComplete, PenaltySettled, OwnerMatches, Applying;
    reasons := before;
    NextReason(5, BundleUnverified, r, expected, reasons);
    if r.bundle.None? || r.rescore != Some("completed") { reasons := reasons + [BundleUnverified]; }
    NextReason(6, AntiCheatUnverified, r, expected, reasons);
    if r.antiCheat.None? { reasons := reasons + [AntiCheatUnverified]; }
    NextReason(7, TraceUnverified, r, expected, reasons);
    if r.traceEvidence != Some("present") { reasons := reasons + [TraceUnverified]; }
    NextReason(8, PageInconsistent, r, expected, reasons);
    if !r.pageConsistent { reasons := reasons + [PageInconsistent]; }
  }

  /** The reasons' texts, joined with `"; "`. */
  function Join(reasons: seq<Reason>): (text: string)
    ensures reasons != [] ==> text != ""
  {
    if reasons == [] then ""
    else if |reasons| == 1 then ReasonText(reasons[0])
    else ReasonText(reasons[0]) + "; " + Join(reasons[1..])
  }

  datatype ItemState =
    | Observation(replay: string, results: string, scorecard: string, leaderboard: string,
                  reward: Json, trace: Option<real>)
    | UnknownNeedsReconcile(reason: string)

  datatype Facts = Facts(rawScore: Option<real>, effective: Option<real>, penalty: Option<(real, Basis)>,
                         credited: Option<(string, string)>, bundle: Option<(string, string)>,
                         trace: Option<string>, antiCheat: Option<seq<Signal>>, page: Option<ChallengePage>,
                         anonymousClosed: bool, evidencePresent: bool)

  datatype Item = Item(stream: string, position: int, challenge: string, attempt: string, route: string,
                       observedAt: int, sha256: string, facts: Facts, state: ItemState)

  function FactsOf(r: Reading, complete: bool): Facts {
    Facts(r.rawScore, r.effective,
          if r.basis.Some? && r.penalty.Some? then Some((r.penalty.value, r.basis.value)) else None,
          if r.owner.Some? && r.scope.Some? then Some((r.owner.value, r.scope.value)) else None,
          if r.bundle.Some? && r.rescore.Some? then Some((r.bundle.value, r.rescore.value)) else None,
          r.traceEvidence, r.antiCheat, r.page, r.anonymousClosed, complete)
  }

  function StateOf(r: Reading, expected: Option<string>): ItemState {
    if Complete(r, expected)
    then Observation(r.replay, r.results, r.scorecard, r.leaderboard, r.reward, r.trace)
    else UnknownNeedsReconcile(Join(Reasons(r, expected)))
  }

  /** An item is an observation exactly if there is no reason against it, and the reason given
      for an unknown one is never empty. */
  lemma ObservationIff(r: Reading, expected: Option<string>)
    ensures StateOf(r, expected).Observation? <==> Reasons(r, expected) == []
    ensures StateOf(r, expected).UnknownNeedsReconcile? ==> StateOf(r, expected).reason != ""
  {
    TraceObserved(r);
    CompleteApplies(r, expected);
    var rs := Reasons(r, expected);
    if rs != [] { ReasonsIn(r, expected, rs[0]); }
    forall x: Reason ensures x in rs <==> Applies(x, r, expected) { ReasonsIn(r, expected, x); }
  }

  lemma TraceObserved(r: Reading)
    ensures ObservationComplete(r) ==> r.traceEvidence == Some("present")
  {}

  lemma CompleteApplies(r: Reading, expected: Option<string>)
    ensures Complete(r, expected) <==> forall x: Reason :: !Applies(x, r, expected)
  {
    hide ObservationComplete, PenaltySettled, OwnerMatches;
    TraceObserved(r);
    if forall x: Reason :: !Applies(x, r, expected) {
      assert !Applies(EvidenceIncomplete, r, expected) && !Applies(ScoresUnverified, r, expected)
          && !Applies(PenaltyUnverified, r, expected) && !Applies(OwnerUnverified, r, expected)
          && !Applies(OwnerDiffers, r, expected) && !Applies(BundleUnverified, r, expected)
          && !Applies(AntiCheatUnverified, r, expected) && !Applies(PageInconsistent, r, expected);
    }
  }
}
