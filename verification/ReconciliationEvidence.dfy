/** What an item says, in terms of the response that it was built from. */
module ReconciliationEvidence {
  import opened Text
  import opened PlatformJson
  import opened ReconciliationItem
  import opened ReconciliationPage

  // --- the fields of a response ---

  function ReplayField(lib: Library, f: map<string, Json>): Json {
    NestedFirst(lib, f, ["harbor_replay_executed", "harborReplayExecuted", "replay_executed", "replayExecuted",
                         "replay"])
  }

  function ResultsField(f: map<string, Json>): Json { First(f, ["resultsJson", "results_json", "results"]) }

  function ScorecardField(f: map<string, Json>): Json { First(f, ["scorecard", "scoringDetails", "scoring_details"]) }

  function LeaderboardField(f: map<string, Json>): Json {
    First(f, ["leaderboard", "leaderboard_status", "rank", "leaderboardEntry"])
  }

  function RewardField(lib: Library, f: map<string, Json>): Json {
    NestedFirst(lib, f, ["harbor_reward", "harborReward", "reward"])
  }

  function TraceScoreField(lib: Library, f: map<string, Json>): Json {
    NestedFirst(lib, f, ["trace_score", "traceScore"])
  }

  function RawField(lib: Library, f: map<string, Json>): Json {
    NestedFirst(lib, f, ["raw_score", "rawScore", "original_score", "originalScore"])
  }

  function EffectiveField(lib: Library, f: map<string, Json>): Json {
    NestedFirst(lib, f, ["effective_score", "effectiveScore", "credited_score", "creditedScore"])
  }

  function PenaltyField(lib: Library, f: map<string, Json>): Json {
    NestedFirst(lib, f, ["penalty", "penaltyDelta", "penalty_delta"])
  }

  function AppliedField(lib: Library, f: map<string, Json>): Json {
    NestedFirst(lib, f, ["penalty_applied", "penaltyApplied", "penalized"])
  }

  function BasisField(lib: Library, f: map<string, Json>): Json {
    NestedFirst(lib, f, ["penalty_basis", "penaltyBasis", "penalty_reason"])
  }

  function OwnerField(lib: Library, f: map<string, Json>): Json {
    NestedFirst(lib, f, ["credited_owner", "creditedOwner", "owner", "agent", "user"])
  }

  function ScopeField(lib: Library, f: map<string, Json>): Json {
    NestedFirst(lib, f, ["leaderboard_scope", "leaderboardScope", "scope"])
  }

  function BundleField(lib: Library, f: map<string, Json>): Json {
    NestedFirst(lib, f, ["bundle_revision", "bundleRevision", "bundle_hash", "bundleHash"])
  }

  function RescoreField(lib: Library, f: map<string, Json>): Json {
    NestedFirst(lib, f, ["rescore_status", "rescoreStatus", "bundle_rescore_status"])
  }

  function TraceField(lib: Library, f: map<string, Json>): Json {
    NestedFirst(lib, f, ["trace_evidence", "traceEvidence", "execution_trace", "executionTrace"])
  }

  function AntiCheatField(lib: Library, f: map<string, Json>): Json {
    NestedFirst(lib, f, ["anti_cheat", "antiCheat", "anticheat"])
  }

  function PageField(lib: Library, f: map<string, Json>): Json {
    NestedFirst(lib, f, ["challenge_page", "challengePage"])
  }

  function AnonymousField(lib: Library, f: map<string, Json>): Json {
    NestedFirst(lib, f, ["anonymous_other_submission_access", "anonymousOtherSubmissionAccess"])
  }

  // --- what the fields have to hold ---

  /** Anything that is there and is not a word for something else. */
  predicate Shown(lib: Library, v: Json) {
    && v != Null && v != Bool(false)
    && (v.Str? ==> lib.lower(v.s) !in ["redacted", "pending", "unavailable", "not_applicable"])
  }

  predicate Redacted(lib: Library, v: Json) { v.Str? && lib.lower(v.s) == "redacted" }

  ghost predicate NumberWithin(v: Json, low: real, high: real) { exists x :: IsNumber(v, x) && low <= x <= high }

  ghost predicate NoNumber(v: Json) { forall x :: !IsNumber(v, x) }

  predicate SaysPresent(lib: Library, v: Json) { v == Bool(true) || Word(lib, v, ["present"]) }

  predicate SaysApplied(lib: Library, v: Json) {
    || v == Bool(true) || (v.Int? && v != Int(0)) || v.NonFinite? || (v.Num? && v.value != 0.0)
    || Word(lib, v, ["1", "true", "yes", "applied", "penalized"])
  }

  /** Who is credited: the value itself, or a name inside it. */
  function Credited(v: Json): Json { if v.Obj? then First(v.fields, ["id", "name", "username", "handle"]) else v }

  predicate Filled(v: Json) { v != Null && v != Str("") }

  predicate UnifiedScope(lib: Library, v: Json) {
    Word(lib, v, ["unified_overall_and_season", "unifiedoverallandseason"])
  }

  predicate NamedText(v: Json) { v.Str? && !Blank(v.s) }

  /** The penalty of one point with its basis: flagged, and borne out by all three scores. */
  ghost predicate PenaltyShown(lib: Library, f: map<string, Json>, x: real, y: real, z: real) {
    && SaysApplied(lib, AppliedField(lib, f))
    && IsNumber(RawField(lib, f), x) && IsNumber(EffectiveField(lib, f), y) && IsNumber(PenaltyField(lib, f), -1.0)
    && -0.000000001 <= y - (x - 1.0) <= 0.000000001
    && BasisField(lib, f).Obj?
    && var basis := BasisField(lib, f).fields;
       && NamedText(Get(basis, "object")) && NamedText(Get(basis, "reason"))
       && IsNumber(Get(basis, "rewritten_score"), z) && -0.000000001 <= z - y <= 0.000000001
  }

  ghost predicate PenaltyProven(lib: Library, f: map<string, Json>) { exists x, y, z :: PenaltyShown(lib, f, x, y, z) }

  ghost predicate NoPenalty(lib: Library, f: map<string, Json>) {
    !SaysApplied(lib, AppliedField(lib, f)) && forall x :: IsNumber(PenaltyField(lib, f), x) ==> x == 0.0
  }

  /** A signal with a name and a weight. */
  ghost predicate SignalShown(v: Json) {
    && v.Obj? && NamedText(Get(v.fields, "name"))
    && exists x :: IsNumber(Get(v.fields, "weight"), x) && x >= 0.0
  }

  /** Three signals with different names, not all without weight. */
  ghost predicate ThreeSignals(v: Json) {
    && v.Obj? && Get(v.fields, "mode") in [Str("weighted_three_signals"), Str("weightedThreeSignals")]
    && Get(v.fields, "signals").Arr?
    && var signals := Get(v.fields, "signals").items;
       && |signals| == 3 && (forall i :: 0 <= i < 3 ==> SignalShown(signals[i]))
       && (forall i, j :: 0 <= i < j < 3 ==> SignalName(signals[i]) != SignalName(signals[j]))
       && exists i :: 0 <= i < 3 && !IsNumber(Get(signals[i].fields, "weight"), 0.0)
  }

  function SignalName(v: Json): string {
    if v.Obj? && Get(v.fields, "name").Str? then Strip(Get(v.fields, "name").s) else ""
  }

  /** The share route of a page, if it has one. */
  function RouteText(lib: Library, page: map<string, Json>): string {
    var v := NestedFirst(lib, page, ["share_route", "shareRoute"]);
    if Filled(v) then Strip(ToString(lib, v)) else ""
  }

  /** The page says something about its share route that is not so. */
  predicate PageContradicts(lib: Library, v: Json) {
    && v.Obj?
    && var said := NestedFirst(lib, v.fields, ["share_route_status", "shareRouteStatus"]);
       if RouteText(lib, v.fields) != "" then
         said == Bool(false) || Word(lib, said, ["redacted", "pending", "unavailable", "not_applicable"])
       else said == Bool(true) || Word(lib, said, ["present", "redacted", "pending", "not_applicable"])
  }

  /** The score was replayed and traced, and is on the leaderboard. */
  ghost predicate EvidenceShown(lib: Library, f: map<string, Json>) {
    && Shown(lib, ReplayField(lib, f))
    && (Shown(lib, ResultsField(f)) || Redacted(lib, ResultsField(f)))
    && (Shown(lib, ScorecardField(f)) || Redacted(lib, ScorecardField(f)))
    && Shown(lib, LeaderboardField(f))
    && NumberWithin(RewardField(lib, f), 0.0, 1.0)
    && (NoNumber(TraceScoreField(lib, f)) || NumberWithin(TraceScoreField(lib, f), 0.0, 100.0))
    && SaysPresent(lib, TraceField(lib, f))
  }

  predicate Owned(lib: Library, f: map<string, Json>) {
    Filled(Credited(OwnerField(lib, f))) && UnifiedScope(lib, ScopeField(lib, f))
  }

  predicate Expected(lib: Library, f: map<string, Json>, expected: Option<string>) {
    expected.Some? ==> ToString(lib, Credited(OwnerField(lib, f))) == Strip(expected.value)
  }

  predicate Rescored(lib: Library, f: map<string, Json>) {
    Filled(BundleField(lib, f)) && Word(lib, RescoreField(lib, f), ["completed"])
  }

  /** The response proves a score. */
  ghost predicate Proven(lib: Library, f: map<string, Json>, expected: Option<string>) {
    && EvidenceShown(lib, f)
    && !NoNumber(RawField(lib, f)) && !NoNumber(EffectiveField(lib, f))
    && (PenaltyProven(lib, f) || NoPenalty(lib, f))
    && Owned(lib, f) && Expected(lib, f, expected) && Rescored(lib, f)
    && ThreeSignals(AntiCheatField(lib, f))
    && !PageContradicts(lib, PageField(lib, f))
  }

  /** What a response can fail to prove, and the words for it. */
  ghost predicate Doubtful(lib: Library, f: map<string, Json>, expected: Option<string>, k: nat)
    requires k < 9
  {
    match k
    case 0 => !EvidenceShown(lib, f)
    case 1 => NoNumber(RawField(lib, f)) || NoNumber(EffectiveField(lib, f))
    case 2 => !PenaltyProven(lib, f) && !NoPenalty(lib, f)
    case 3 => !Owned(lib, f)
    case 4 => Owned(lib, f) && !Expected(lib, f, expected)
    case 5 => !Rescored(lib, f)
    case 6 => !ThreeSignals(AntiCheatField(lib, f))
    case 7 => !SaysPresent(lib, TraceField(lib, f))
    case 8 => PageContradicts(lib, PageField(lib, f))
  }

  const DOUBT_TEXTS: seq<string> :=
    ["replay/results/scorecard/leaderboard evidence incomplete",
     "raw/effective scores unverified",
     "penalty delta and basis unverified",
     "credited owner or leaderboard scope unverified",
     "credited owner does not match the expected operator",
     "bundle revision or fresh rescore unverified",
     "weighted anti-cheat evidence unverified",
     "execution trace evidence unverified",
     "challenge page evidence inconsistent"]

  ghost function Doubts(lib: Library, f: map<string, Json>, expected: Option<string>): (ds: seq<(bool, string)>)
    ensures |ds| == 9
  {
    seq(9, k requires 0 <= k < 9 => (Doubtful(lib, f, expected, k), DOUBT_TEXTS[k]))
  }

  /** The words of the doubts that there are. */
  function Raised(doubts: seq<(bool, string)>): seq<string> {
    if doubts == [] then []
    else
      var before := Raised(doubts[..|doubts| - 1]);
      if doubts[|doubts| - 1].0 then before + [doubts[|doubts| - 1].1] else before
  }

  function Semicolons(texts: seq<string>): string {
    if texts == [] then "" else if |texts| == 1 then texts[0] else texts[0] + "; " + Semicolons(texts[1..])
  }

  // --- the readings ---

  lemma ReadStatuses(lib: Library, f: map<string, Json>, antiCheat: Option<seq<Signal>>)
    ensures var r := Read(lib, f, antiCheat);
            && r.replay == Status(lib, ReplayField(lib, f)) && r.results == Status(lib, ResultsField(f))
            && r.scorecard == Status(lib, ScorecardField(f)) && r.leaderboard == Status(lib, LeaderboardField(f))
            && r.reward == RewardField(lib, f) && r.trace == Number(TraceScoreField(lib, f))
            && r.traceEvidence == Evidence(lib, TraceField(lib, f)) && r.antiCheat == antiCheat
  {
    hide CompletePenalty, NestedFirst, First, PageEvidence, Status, Evidence, Rescore, Owner, Bundle, Scope, Flag, Number;
  }

  lemma ReadNumbers(lib: Library, f: map<string, Json>, antiCheat: Option<seq<Signal>>)
    ensures var r := Read(lib, f, antiCheat);
            && r.rawScore == Number(RawField(lib, f)) && r.effective == Number(EffectiveField(lib, f))
            && r.penalty == Number(PenaltyField(lib, f)) && r.penaltyApplied == Flag(lib, AppliedField(lib, f))
            && r.basis == CompletePenalty(r.rawScore, r.effective, r.penalty, r.penaltyApplied, BasisField(lib, f))
  {
    hide CompletePenalty, NestedFirst, First, PageEvidence, Status, Evidence, Rescore, Owner, Bundle, Scope, Flag, Number;
  }

  lemma ReadNames(lib: Library, f: map<string, Json>, antiCheat: Option<seq<Signal>>)
    ensures var r := Read(lib, f, antiCheat);
            && r.owner == Owner(lib, OwnerField(lib, f)) && r.scope == Scope(lib, ScopeField(lib, f))
            && r.bundle == Bundle(lib, BundleField(lib, f)) && r.rescore == Rescore(lib, RescoreField(lib, f))
            && r.anonymousClosed == (AnonymousField(lib, f) == Bool(false))
            && (r.page, r.pageConsistent) == PageEvidence(lib, f)
  {
    hide CompletePenalty, NestedFirst, First, PageEvidence, Status, Evidence, Rescore, Owner, Bundle, Scope, Flag, Number;
  }

  lemma StatusShown(lib: Library, v: Json)
    ensures Status(lib, v) == "present" <==> Shown(lib, v)
    ensures Status(lib, v) == "redacted" <==> Redacted(lib, v)
  {
    hide Status;
    StatusMeans(lib, v);
  }

  lemma OwnerMeans(lib: Library, v: Json)
    ensures Owner(lib, v) == if Filled(Credited(v)) then Some(ToString(lib, Credited(v))) else None
  {
    hide First, ToString;
  }

  lemma ScopeMeans(lib: Library, v: Json)
    ensures Scope(lib, v) == if UnifiedScope(lib, v) then Some("unified_overall_and_season") else None
  {}

  lemma BundleMeans(lib: Library, v: Json)
    ensures Bundle(lib, v) == if Filled(v) then Some(ToString(lib, v)) else None
  {
    hide ToString;
  }

  /** A rescore is one of four words, and is passed on as that word. */
  lemma RescoreMeans(lib: Library, v: Json)
    ensures Rescore(lib, v) == Some("completed") <==> Word(lib, v, ["completed"])
    ensures Rescore(lib, v) == Some("failed") <==> Word(lib, v, ["failed"])
    ensures Rescore(lib, v) == Some("pending") <==> Word(lib, v, ["pending"])
    ensures Rescore(lib, v) == Some("not_applicable") <==> Word(lib, v, ["not_applicable"])
    ensures Rescore(lib, v).Some? ==> Rescore(lib, v).value in ["completed", "failed", "pending", "not_applicable"]
  {}

  lemma Numbered(v: Json)
    ensures Number(v).None? <==> NoNumber(v)
    ensures Number(v).Some? ==> IsNumber(v, Number(v).value) && forall x :: IsNumber(v, x) ==> x == Number(v).value
  {
    hide Number, IsNumber;
    forall x ensures Number(v) == Some(x) <==> IsNumber(v, x) { NumberMeans(v, x); }
    if Number(v).None? { assert NoNumber(v); } else { assert IsNumber(v, Number(v).value); }
  }

  lemma AppliedMeans(lib: Library, v: Json)
    ensures Flag(lib, v) <==> SaysApplied(lib, v)
  {
    hide Flag;
    FlagMeans(lib, v);
  }

  lemma PenaltyMeans(lib: Library, f: map<string, Json>, antiCheat: Option<seq<Signal>>)
    ensures var r := Read(lib, f, antiCheat);
            && (r.basis.Some? <==> PenaltyProven(lib, f))
            && (PenaltySettled(r) <==> PenaltyProven(lib, f) || NoPenalty(lib, f))
            && forall x, y, z :: PenaltyShown(lib, f, x, y, z) ==>
                 && r.rawScore == Some(x) && r.effective == Some(y) && r.penalty == Some(-1.0)
                 && r.basis == Some(Basis(Strip(Get(BasisField(lib, f).fields, "object").s),
                                          Strip(Get(BasisField(lib, f).fields, "reason").s), z))
  {
    hide Read, CompletePenalty, Flag, Number, PenaltyShown, SaysApplied, IsNumber;
    hide PenaltyField, AppliedField, RawField, EffectiveField, BasisField, Strip, Get;
    ReadNumbers(lib, f, antiCheat);
    AppliedMeans(lib, AppliedField(lib, f));
    Numbered(PenaltyField(lib, f));
    BasisMeans(lib, f);
  }

  lemma BasisMeans(lib: Library, f: map<string, Json>)
    ensures var basis := CompletePenalty(Number(RawField(lib, f)), Number(EffectiveField(lib, f)),
                                         Number(PenaltyField(lib, f)), Flag(lib, AppliedField(lib, f)),
                                         BasisField(lib, f));
            && (basis.Some? ==> PenaltyProven(lib, f))
            && forall x, y, z :: PenaltyShown(lib, f, x, y, z) ==>
                 && Number(RawField(lib, f)) == Some(x) && Number(EffectiveField(lib, f)) == Some(y)
                 && Number(PenaltyField(lib, f)) == Some(-1.0)
                 && basis == Some(Basis(Strip(Get(BasisField(lib, f).fields, "object").s),
                                        Strip(Get(BasisField(lib, f).fields, "reason").s), z))
  {
    hide Flag, Number, IsNumber, SaysApplied, Blank, Get;
    hide PenaltyField, AppliedField, RawField, EffectiveField, BasisField, Strip;
    AppliedMeans(lib, AppliedField(lib, f));
    Numbered(PenaltyField(lib, f));
    Numbered(RawField(lib, f));
    Numbered(EffectiveField(lib, f));
    if BasisField(lib, f).Obj? { Numbered(Get(BasisField(lib, f).fields, "rewritten_score")); }
    var basis := CompletePenalty(Number(RawField(lib, f)), Number(EffectiveField(lib, f)),
                                 Number(PenaltyField(lib, f)), Flag(lib, AppliedField(lib, f)), BasisField(lib, f));
    if basis.Some? {
      assert PenaltyShown(lib, f, Number(RawField(lib, f)).value, Number(EffectiveField(lib, f)).value,
                          basis.value.rewritten);
    }
  }

  // --- anti-cheat signals and the challenge page ---

  /** The word that a value stands for when anything else counts as unavailable. */
  predicate StandsFor(lib: Library, v: Json, word: string) {
    || (word == "present" && SaysPresent(lib, v))
    || (word in ["redacted", "pending", "not_applicable"] && Word(lib, v, [word]))
    || (word == "unavailable" && !SaysPresent(lib, v) && !Word(lib, v, ["redacted", "pending", "not_applicable"]))
  }

  lemma Standing(lib: Library, v: Json)
    ensures var e := Evidence(lib, v);
            StandsFor(lib, v, if e.Some? then e.value else "unavailable")
  {
    hide Evidence, Strip;
    EvidenceMeans(lib, v);
  }

  lemma SignalMeans(lib: Library, v: Json)
    ensures NormalSignal(lib, v).Some? <==> SignalShown(v)
    ensures NormalSignal(lib, v).Some? ==> SignalSays(lib, v, NormalSignal(lib, v).value)
  {
    if v.Obj? {
      Numbered(Get(v.fields, "weight"));
      Standing(lib, Get(v.fields, "availability"));
      hide Number, Blank, Strip, Get, IsNumber, Evidence, StandsFor;
    }
  }

  /** A signal as it is passed on. */
  ghost predicate SignalSays(lib: Library, v: Json, s: Signal) {
    && v.Obj? && s.name == SignalName(v) && IsNumber(Get(v.fields, "weight"), s.weight)
    && StandsFor(lib, Get(v.fields, "availability"), s.availability)
  }

  /** Three such signals are accepted, as they are. */
  lemma AntiCheatMeans(lib: Library, v: Json)
    ensures AntiCheat(lib, v).Err? <==> v.Obj? && (Get(v.fields, "mode").Arr? || Get(v.fields, "mode").Obj?)
    ensures AntiCheat(lib, v).Err? ==> AntiCheat(lib, v).error == UnhashableMode
    ensures AntiCheat(lib, v).Ok? && AntiCheat(lib, v).value.Some? <==> ThreeSignals(v)
    ensures ThreeSignals(v) ==>
              && |AntiCheat(lib, v).value.value| == 3
              && forall i :: 0 <= i < 3 ==>
                   SignalSays(lib, Get(v.fields, "signals").items[i], AntiCheat(lib, v).value.value[i])
  {
    hide NormalSignal, SignalShown, SignalSays, IsNumber, Get;
    if v.Obj? && Get(v.fields, "signals").Arr? {
      var signals := Get(v.fields, "signals").items;
      SignalsMean(lib, signals);
    }
  }

  ghost predicate ThreeGood(signals: seq<Json>) {
    && |signals| == 3 && (forall i :: 0 <= i < 3 ==> SignalShown(signals[i]))
    && (forall i, j :: 0 <= i < j < 3 ==> SignalName(signals[i]) != SignalName(signals[j]))
    && exists i :: 0 <= i < 3 && !IsNumber(Get(signals[i].fields, "weight"), 0.0)
  }

  lemma SignalsMean(lib: Library, signals: seq<Json>)
    ensures SignalsOf(lib, signals).Some? <==> ThreeGood(signals)
    ensures SignalsOf(lib, signals).Some? ==>
              && |SignalsOf(lib, signals).value| == 3
              && forall i :: 0 <= i < 3 ==> SignalSays(lib, signals[i], SignalsOf(lib, signals).value[i])
  {
    hide GoodSignals, ThreeGood, SignalSays;
    if GoodSignals(lib, signals) { GoodIsThree(lib, signals); }
    if ThreeGood(signals) { ThreeIsGood(lib, signals); }
  }

  /** One signal, before and after. */
  lemma SignalFacts(lib: Library, v: Json)
    ensures NormalSignal(lib, v).Some? <==> SignalShown(v)
    ensures NormalSignal(lib, v).Some? ==>
              && SignalSays(lib, v, NormalSignal(lib, v).value) && NormalSignal(lib, v).value.name == SignalName(v)
              && v.Obj? && (NormalSignal(lib, v).value.weight == 0.0 <==> IsNumber(Get(v.fields, "weight"), 0.0))
  {
    hide NormalSignal, SignalShown, IsNumber, Number, Get, StandsFor, SignalName;
    SignalMeans(lib, v);
    if v.Obj? { Numbered(Get(v.fields, "weight")); }
  }

  lemma GoodIsThree(lib: Library, signals: seq<Json>)
    requires GoodSignals(lib, signals)
    ensures ThreeGood(signals) && |Normals(lib, signals)| == 3
    ensures forall i :: 0 <= i < 3 ==> SignalSays(lib, signals[i], Normals(lib, signals)[i])
  {
    hide NormalSignal, SignalShown, IsNumber, Get, StandsFor, SignalName, SignalSays;
    var ns := Normals(lib, signals);
    forall i | 0 <= i < 3
      ensures SignalShown(signals[i]) && SignalSays(lib, signals[i], ns[i])
      ensures ns[i].name == SignalName(signals[i]) && signals[i].Obj?
      ensures ns[i].weight == 0.0 <==> IsNumber(Get(signals[i].fields, "weight"), 0.0)
    {
      assert signals[i] in signals;
      SignalFacts(lib, signals[i]);
    }
    assert forall i, j :: 0 <= i < j < 3 ==> SignalName(signals[i]) != SignalName(signals[j]) by {
      forall i, j | 0 <= i < j < 3 ensures SignalName(signals[i]) != SignalName(signals[j]) {
        assert ns[i].name != ns[j].name;
      }
    }
  }

  lemma ThreeIsGood(lib: Library, signals: seq<Json>)
    requires ThreeGood(signals)
    ensures GoodSignals(lib, signals)
  {
    hide NormalSignal, NamedText, IsNumber, Get, StandsFor, SignalName, SignalSays;
    forall i | 0 <= i < 3
      ensures signals[i].Obj? && NormalSignal(lib, signals[i]).Some?
      ensures NormalSignal(lib, signals[i]).value.name == SignalName(signals[i])
      ensures NormalSignal(lib, signals[i]).value.weight == 0.0 <==> IsNumber(Get(signals[i].fields, "weight"), 0.0)
    {
      SignalFacts(lib, signals[i]);
    }
    assert AllNormal(lib, signals);
    var ns := Normals(lib, signals);
    assert forall i :: 0 <= i < 3 ==> ns[i].name == SignalName(signals[i]);
    var i :| 0 <= i < 3 && !IsNumber(Get(signals[i].fields, "weight"), 0.0);
    assert ns[i].weight != 0.0;
  }

  ghost predicate PageSays(lib: Library, v: map<string, Json>, page: ChallengePage) {
    && StandsFor(lib, NestedFirst(lib, v, ["challenge_section", "challengeSection"]), page.challenge)
    && StandsFor(lib, NestedFirst(lib, v, ["my_submissions_section", "mySubmissionsSection"]), page.mySubmissions)
    && StandsFor(lib, NestedFirst(lib, v, ["leaderboard_section", "leaderboardSection"]), page.leaderboard)
    && StandsFor(lib, NestedFirst(lib, v, ["attachment_status", "attachmentStatus"]), page.attachment)
    && page.shareRoute == (if Filled(NestedFirst(lib, v, ["share_route", "shareRoute"])) then Some(RouteText(lib, v))
                           else None)
    && page.shareRouteStatus == if RouteText(lib, v) != "" then "present" else "unavailable"
  }

  lemma PageMeans(lib: Library, f: map<string, Json>)
    ensures var v := PageField(lib, f);
            var (page, consistent) := PageEvidence(lib, f);
            && (consistent <==> !PageContradicts(lib, v))
            && (page.Some? <==> v.Obj? && !PageContradicts(lib, v))
            && (page.Some? ==> PageSays(lib, v.fields, page.value))
  {
    hide Section, Evidence, NestedFirst, StandsFor, Strip, ToString, PageField;
    var v := PageField(lib, f);
    PageFieldIs(lib, f);
    if v.Obj? {
      SectionMeans(lib, v.fields, ["challenge_section", "challengeSection"]);
      SectionMeans(lib, v.fields, ["my_submissions_section", "mySubmissionsSection"]);
      SectionMeans(lib, v.fields, ["leaderboard_section", "leaderboardSection"]);
      SectionMeans(lib, v.fields, ["attachment_status", "attachmentStatus"]);
      EvidenceMeans(lib, NestedFirst(lib, v.fields, ["share_route_status", "shareRouteStatus"]));
    }
  }

  lemma PageFieldIs(lib: Library, f: map<string, Json>)
    ensures PageField(lib, f) == NestedFirst(lib, f, ["challenge_page", "challengePage"])
  {}

  lemma SectionMeans(lib: Library, v: map<string, Json>, keys: seq<string>)
    ensures StandsFor(lib, NestedFirst(lib, v, keys), Section(lib, v, keys))
  {
    hide NestedFirst, Evidence, StandsFor;
    Standing(lib, NestedFirst(lib, v, keys));
  }

  // --- the item ---

  /** What was read, in terms of the response. */
  ghost predicate ReadFrom(lib: Library, f: map<string, Json>, r: Reading) {
    AntiCheat(lib, AntiCheatField(lib, f)).Ok? && r == Read(lib, f, AntiCheat(lib, AntiCheatField(lib, f)).value)
  }

  lemma PresentMeans(lib: Library, v: Json)
    ensures Evidence(lib, v) == Some("present") <==> SaysPresent(lib, v)
  {
    hide Evidence, Strip;
    EvidenceMeans(lib, v);
  }

  lemma NumberIn(v: Json, low: real, high: real)
    ensures NumberWithin(v, low, high) <==> Number(v).Some? && low <= Number(v).value <= high
    ensures NoNumber(v) <==> Number(v).None?
  {
    hide Number, IsNumber;
    Numbered(v);
  }

  lemma EvidenceRead(lib: Library, f: map<string, Json>, r: Reading)
    requires ReadFrom(lib, f, r)
    ensures ObservationComplete(r) <==> EvidenceShown(lib, f)
    ensures r.traceEvidence == Some("present") <==> SaysPresent(lib, TraceField(lib, f))
  {
    hide Read, NumberWithin, NoNumber, Status, Shown, Redacted, Number, IsNumber, Evidence, SaysPresent;
    hide ReplayField, ResultsField, ScorecardField, LeaderboardField, RewardField, TraceScoreField, TraceField, AntiCheat;
    ReadStatuses(lib, f, AntiCheat(lib, AntiCheatField(lib, f)).value);
    StatusShown(lib, ReplayField(lib, f));
    StatusShown(lib, ResultsField(f));
    StatusShown(lib, ScorecardField(f));
    StatusShown(lib, LeaderboardField(f));
    PresentMeans(lib, TraceField(lib, f));
    NumberIn(RewardField(lib, f), 0.0, 1.0);
    NumberIn(TraceScoreField(lib, f), 0.0, 100.0);
  }

  lemma ScoresRead(lib: Library, f: map<string, Json>, r: Reading)
    requires ReadFrom(lib, f, r)
    ensures r.rawScore == Number(RawField(lib, f)) && r.effective == Number(EffectiveField(lib, f))
    ensures r.rawScore.None? <==> NoNumber(RawField(lib, f))
    ensures r.effective.None? <==> NoNumber(EffectiveField(lib, f))
    ensures PenaltySettled(r) <==> PenaltyProven(lib, f) || NoPenalty(lib, f)
  {
    hide Read, Number, NoNumber, PenaltySettled, PenaltyProven, NoPenalty, RawField, EffectiveField, PenaltyShown;
    ReadNumbers(lib, f, AntiCheat(lib, AntiCheatField(lib, f)).value);
    PenaltyMeans(lib, f, AntiCheat(lib, AntiCheatField(lib, f)).value);
    Numbered(RawField(lib, f));
    Numbered(EffectiveField(lib, f));
  }

  lemma NamesRead(lib: Library, f: map<string, Json>, r: Reading)
    requires ReadFrom(lib, f, r)
    ensures r.owner == if Filled(Credited(OwnerField(lib, f))) then Some(ToString(lib, Credited(OwnerField(lib, f)))) else None
    ensures r.scope == if UnifiedScope(lib, ScopeField(lib, f)) then Some("unified_overall_and_season") else None
    ensures r.bundle == if Filled(BundleField(lib, f)) then Some(ToString(lib, BundleField(lib, f))) else None
    ensures r.rescore == Rescore(lib, RescoreField(lib, f))
    ensures r.rescore == Some("completed") <==> Word(lib, RescoreField(lib, f), ["completed"])
    ensures r.anonymousClosed <==> AnonymousField(lib, f) == Bool(false)
  {
    hide Read, Rescore, Owner, Scope, Bundle, Credited, UnifiedScope, Word, ToString, Filled;
    hide OwnerField, ScopeField, BundleField, RescoreField, AnonymousField;
    ReadNames(lib, f, AntiCheat(lib, AntiCheatField(lib, f)).value);
    OwnerMeans(lib, OwnerField(lib, f));
    ScopeMeans(lib, ScopeField(lib, f));
    BundleMeans(lib, BundleField(lib, f));
    RescoreMeans(lib, RescoreField(lib, f));
  }

  lemma RestRead(lib: Library, f: map<string, Json>, r: Reading)
    requires ReadFrom(lib, f, r)
    ensures r.antiCheat == AntiCheat(lib, AntiCheatField(lib, f)).value
    ensures r.antiCheat.Some? <==> ThreeSignals(AntiCheatField(lib, f))
    ensures r.pageConsistent <==> !PageContradicts(lib, PageField(lib, f))
    ensures r.page.Some? <==> PageField(lib, f).Obj? && !PageContradicts(lib, PageField(lib, f))
    ensures r.page.Some? ==> PageSays(lib, PageField(lib, f).fields, r.page.value)
  {
    hide Read, AntiCheat, PageEvidence, ThreeSignals, PageContradicts, PageSays, AntiCheatField, PageField;
    ReadStatuses(lib, f, AntiCheat(lib, AntiCheatField(lib, f)).value);
    ReadNames(lib, f, AntiCheat(lib, AntiCheatField(lib, f)).value);
    AntiCheatMeans(lib, AntiCheatField(lib, f));
    PageMeans(lib, f);
  }

  lemma EvidenceDoubts(lib: Library, f: map<string, Json>, r: Reading, expected: Option<string>)
    requires ReadFrom(lib, f, r)
    ensures Applies(EvidenceIncomplete, r, expected) <==> !EvidenceShown(lib, f)
    ensures Applies(TraceUnverified, r, expected) <==> !SaysPresent(lib, TraceField(lib, f))
  {
    hide ReadFrom, ObservationComplete, EvidenceShown, SaysPresent, TraceField;
    EvidenceRead(lib, f, r);
  }

  lemma ScoreDoubts(lib: Library, f: map<string, Json>, r: Reading, expected: Option<string>)
    requires ReadFrom(lib, f, r)
    ensures Applies(ScoresUnverified, r, expected) <==> NoNumber(RawField(lib, f)) || NoNumber(EffectiveField(lib, f))
    ensures Applies(PenaltyUnverified, r, expected) <==> !PenaltyProven(lib, f) && !NoPenalty(lib, f)
  {
    hide ReadFrom, PenaltySettled, NoNumber, PenaltyProven, NoPenalty, RawField, EffectiveField;
    ScoresRead(lib, f, r);
  }

  lemma NameDoubts(lib: Library, f: map<string, Json>, r: Reading, expected: Option<string>)
    requires ReadFrom(lib, f, r)
    ensures Applies(OwnerUnverified, r, expected) <==> !Owned(lib, f)
    ensures Applies(OwnerDiffers, r, expected) <==> Owned(lib, f) && !Expected(lib, f, expected)
    ensures Applies(BundleUnverified, r, expected) <==> !Rescored(lib, f)
  {
    hide ReadFrom, Filled, UnifiedScope, Word, Strip, ToString, Credited;
    hide OwnerField, ScopeField, BundleField, RescoreField, AnonymousField;
    NamesRead(lib, f, r);
  }

  lemma RestDoubts(lib: Library, f: map<string, Json>, r: Reading, expected: Option<string>)
    requires ReadFrom(lib, f, r)
    ensures Applies(AntiCheatUnverified, r, expected) <==> !ThreeSignals(AntiCheatField(lib, f))
    ensures Applies(PageInconsistent, r, expected) <==> PageContradicts(lib, PageField(lib, f))
  {
    hide ReadFrom, ThreeSignals, PageContradicts, PageSays, AntiCheat, AntiCheatField, PageField;
    RestRead(lib, f, r);
  }

  /** Each reason is one of the doubts about the response. */
  lemma DoubtRead(lib: Library, f: map<string, Json>, r: Reading, expected: Option<string>, k: nat)
    requires ReadFrom(lib, f, r) && k < 9
    ensures Doubtful(lib, f, expected, k) <==> Applies(ReasonAt(k), r, expected)
  {
    hide ReadFrom, Applies, EvidenceShown, NoNumber, PenaltyProven, NoPenalty, Owned, Expected, Rescored, ThreeSignals,
         SaysPresent, PageContradicts, RawField, EffectiveField, AntiCheatField, TraceField, PageField;
    EvidenceDoubts(lib, f, r, expected);
    ScoreDoubts(lib, f, r, expected);
    NameDoubts(lib, f, r, expected);
    RestDoubts(lib, f, r, expected);
  }

  lemma DoubtTexts(k: nat)
    requires k < 9
    ensures ReasonText(ReasonAt(k)) == DOUBT_TEXTS[k]
  {}

  lemma {:induction false} DoubtsRaised(lib: Library, f: map<string, Json>, r: Reading, expected: Option<string>, k: nat)
    requires ReadFrom(lib, f, r) && k <= 9
    ensures Raised(Doubts(lib, f, expected)[..k]) == Texts(Applying(k, r, expected))
  {
    hide ReadFrom, Doubtful, Applies, ReasonAt, ReasonText;
    if k > 0 {
      var ds := Doubts(lib, f, expected);
      DoubtsRaised(lib, f, r, expected, k - 1);
      DoubtRead(lib, f, r, expected, k - 1);
      DoubtTexts(k - 1);
      assert ds[..k][..k - 1] == ds[..k - 1] && ds[..k][k - 1] == ds[k - 1];
    }
  }

  function Texts(reasons: seq<Reason>): seq<string> {
    seq(|reasons|, i requires 0 <= i < |reasons| => ReasonText(reasons[i]))
  }

  lemma {:induction false} Joined(reasons: seq<Reason>)
    ensures Join(reasons) == Semicolons(Texts(reasons))
  {
    hide ReasonText;
    if |reasons| > 1 {
      Joined(reasons[1..]);
      assert Texts(reasons)[1..] == Texts(reasons[1..]);
    }
  }

  /** An item is an observation exactly if the response proves the score; otherwise it gives, in order,
      every doubt that there is. */
  lemma StateMeans(lib: Library, f: map<string, Json>, r: Reading, expected: Option<string>)
    requires ReadFrom(lib, f, r)
    ensures StateOf(r, expected).Observation? <==> Proven(lib, f, expected)
    ensures !Proven(lib, f, expected) ==>
              StateOf(r, expected) == UnknownNeedsReconcile(Semicolons(Raised(Doubts(lib, f, expected))))
  {
    hide ReadFrom, Doubts, Complete, Proven, Applying, Raised, Join, Semicolons, Texts;
    ProvenRead(lib, f, r, expected);
    DoubtsRaised(lib, f, r, expected, 9);
    assert Doubts(lib, f, expected)[..9] == Doubts(lib, f, expected);
    Joined(Reasons(r, expected));
  }

  lemma ProvenRead(lib: Library, f: map<string, Json>, r: Reading, expected: Option<string>)
    requires ReadFrom(lib, f, r)
    ensures Complete(r, expected) <==> Proven(lib, f, expected)
  {
    hide ReadFrom, Read, ObservationComplete, PenaltySettled, EvidenceShown, NoNumber, PenaltyProven, NoPenalty, Filled;
    hide UnifiedScope, Word, ThreeSignals, PageContradicts, PageSays, SaysPresent, Strip, ToString, Credited;
    EvidenceRead(lib, f, r);
    ScoresRead(lib, f, r);
    NamesRead(lib, f, r);
    RestRead(lib, f, r);
  }

  /** The state of an observation: both scores' evidence, as far as it was shown. */
  ghost predicate ObservationSays(lib: Library, f: map<string, Json>, o: ItemState) {
    && o.Observation? && o.replay == "present" && o.leaderboard == "present"
    && o.results == (if Shown(lib, ResultsField(f)) then "present" else "redacted")
    && o.scorecard == (if Shown(lib, ScorecardField(f)) then "present" else "redacted")
    && o.reward == RewardField(lib, f)
    && (if NoNumber(TraceScoreField(lib, f)) then o.trace == None
        else o.trace.Some? && IsNumber(TraceScoreField(lib, f), o.trace.value))
  }

  /** An optional number of the facts. */
  ghost predicate NumberSays(v: Json, x: Option<real>) {
    if NoNumber(v) then x == None else x.Some? && IsNumber(v, x.value)
  }

  ghost predicate PenaltySays(lib: Library, f: map<string, Json>, penalty: Option<(real, Basis)>) {
    if PenaltyProven(lib, f) then
      && penalty.Some? && penalty.value.0 == -1.0
      && penalty.value.1.subject == Strip(Get(BasisField(lib, f).fields, "object").s)
      && penalty.value.1.reason == Strip(Get(BasisField(lib, f).fields, "reason").s)
      && exists x, y :: PenaltyShown(lib, f, x, y, penalty.value.1.rewritten)
    else penalty == None
  }

  /** The revision of the bundle, with one of the four words for its rescore. */
  ghost predicate BundleSays(lib: Library, f: map<string, Json>, bundle: Option<(string, string)>) {
    var said := Word(lib, RescoreField(lib, f), ["completed", "failed", "pending", "not_applicable"]);
    if Filled(BundleField(lib, f)) && said then
      && bundle.Some? && bundle.value.0 == ToString(lib, BundleField(lib, f))
      && bundle.value.1 in ["completed", "failed", "pending", "not_applicable"]
      && Word(lib, RescoreField(lib, f), [bundle.value.1])
    else bundle == None
  }

  ghost predicate AntiCheatSays(lib: Library, v: Json, signals: Option<seq<Signal>>) {
    if ThreeSignals(v) then
      && signals.Some? && |signals.value| == 3
      && forall i :: 0 <= i < 3 ==> SignalSays(lib, Get(v.fields, "signals").items[i], signals.value[i])
    else signals == None
  }

  ghost predicate TraceSays(lib: Library, v: Json, trace: Option<string>) {
    && (trace == Some("present") <==> v == Bool(true) || Word(lib, v, ["present"]))
    && (trace == Some("unavailable") <==> v == Bool(false) || Word(lib, v, ["unavailable"]))
    && (trace == Some("redacted") <==> Word(lib, v, ["redacted"]))
    && (trace == Some("pending") <==> Word(lib, v, ["pending"]))
    && (trace == Some("not_applicable") <==> Word(lib, v, ["not_applicable"]))
    && (trace.Some? ==> trace.value in ["present", "redacted", "pending", "unavailable", "not_applicable"])
  }

  ghost predicate FactsSay(lib: Library, f: map<string, Json>, facts: Facts) {
    && NumberSays(RawField(lib, f), facts.rawScore) && NumberSays(EffectiveField(lib, f), facts.effective)
    && PenaltySays(lib, f, facts.penalty)
    && facts.credited == (if Owned(lib, f)
                          then Some((ToString(lib, Credited(OwnerField(lib, f))), "unified_overall_and_season"))
                          else None)
    && BundleSays(lib, f, facts.bundle)
    && TraceSays(lib, TraceField(lib, f), facts.trace)
    && AntiCheatSays(lib, AntiCheatField(lib, f), facts.antiCheat)
    && (if PageField(lib, f).Obj? && !PageContradicts(lib, PageField(lib, f))
        then facts.page.Some? && PageSays(lib, PageField(lib, f).fields, facts.page.value) else facts.page == None)
    && (facts.anonymousClosed <==> AnonymousField(lib, f) == Bool(false))
  }

  lemma NumberSaid(v: Json)
    ensures NumberSays(v, Number(v))
  {
    hide Number, IsNumber;
    Numbered(v);
  }

  lemma ScoresSaid(lib: Library, f: map<string, Json>, r: Reading)
    requires ReadFrom(lib, f, r)
    ensures NumberSays(RawField(lib, f), r.rawScore) && NumberSays(EffectiveField(lib, f), r.effective)
  {
    hide ReadFrom, NumberSays, RawField, EffectiveField, Number, PenaltySettled, PenaltyProven, NoPenalty;
    ScoresRead(lib, f, r);
    NumberSaid(RawField(lib, f));
    NumberSaid(EffectiveField(lib, f));
  }

  lemma PenaltySaid(lib: Library, f: map<string, Json>, r: Reading, complete: bool)
    requires ReadFrom(lib, f, r)
    ensures PenaltySays(lib, f, FactsOf(r, complete).penalty)
  {
    hide Read, PenaltyShown, BasisField, Strip, Get, AntiCheat, PenaltySettled, NoPenalty;
    PenaltyMeans(lib, f, AntiCheat(lib, AntiCheatField(lib, f)).value);
    if PenaltyProven(lib, f) {
      var x, y, z :| PenaltyShown(lib, f, x, y, z);
      assert r.basis.value.rewritten == z;
    }
  }

  lemma BundleSaid(lib: Library, f: map<string, Json>, r: Reading, complete: bool)
    requires ReadFrom(lib, f, r)
    ensures BundleSays(lib, f, FactsOf(r, complete).bundle)
  {
    hide ReadFrom, Rescore, BundleField, RescoreField, Strip, ToString, Filled, Credited, UnifiedScope, OwnerField,
         ScopeField, AnonymousField;
    NamesRead(lib, f, r);
    RescoreMeans(lib, RescoreField(lib, f));
  }

  lemma TraceSaid(lib: Library, f: map<string, Json>, r: Reading)
    requires ReadFrom(lib, f, r)
    ensures TraceSays(lib, TraceField(lib, f), r.traceEvidence)
  {
    hide Read, Evidence, Strip, TraceField, AntiCheat, ReplayField, ResultsField, ScorecardField, LeaderboardField,
         RewardField, TraceScoreField, Status, Number, Word;
    ReadStatuses(lib, f, AntiCheat(lib, AntiCheatField(lib, f)).value);
    EvidenceMeans(lib, TraceField(lib, f));
  }

  lemma AntiCheatSaid(lib: Library, f: map<string, Json>, r: Reading)
    requires ReadFrom(lib, f, r)
    ensures AntiCheatSays(lib, AntiCheatField(lib, f), r.antiCheat)
  {
    hide ReadFrom, AntiCheat, ThreeSignals, SignalSays, AntiCheatField, PageField, PageContradicts, PageSays, Get;
    RestRead(lib, f, r);
    AntiCheatMeans(lib, AntiCheatField(lib, f));
  }

  lemma FactsMean(lib: Library, f: map<string, Json>, r: Reading, complete: bool)
    requires ReadFrom(lib, f, r)
    ensures FactsSay(lib, f, FactsOf(r, complete))
  {
    hide ReadFrom, NumberSays, PenaltySays, BundleSays, TraceSays, AntiCheatSays, PageSays, PageContradicts, Filled, Word,
         ThreeSignals, Credited, UnifiedScope, ToString, Rescore, AntiCheat;
    hide RawField, EffectiveField, OwnerField, ScopeField, BundleField, RescoreField, TraceField, AntiCheatField, PageField,
         AnonymousField;
    ScoresSaid(lib, f, r);
    PenaltySaid(lib, f, r, complete);
    BundleSaid(lib, f, r, complete);
    TraceSaid(lib, f, r);
    AntiCheatSaid(lib, f, r);
    NamesRead(lib, f, r);
    RestRead(lib, f, r);
  }

  lemma ObservationMeans(lib: Library, f: map<string, Json>, r: Reading, expected: Option<string>)
    requires ReadFrom(lib, f, r) && StateOf(r, expected).Observation?
    ensures ObservationSays(lib, f, StateOf(r, expected))
  {
    hide Read, Status, Shown, Redacted, Number, IsNumber, NoNumber, PenaltySettled, OwnerMatches, Reasons, Join, AntiCheat,
         Evidence;
    hide ReplayField, ResultsField, ScorecardField, LeaderboardField, RewardField, TraceScoreField, TraceField;
    ReadStatuses(lib, f, AntiCheat(lib, AntiCheatField(lib, f)).value);
    StatusShown(lib, ResultsField(f));
    StatusShown(lib, ScorecardField(f));
    Numbered(TraceScoreField(lib, f));
  }
}
