/** A history in which a batch is handed to the ledger twice. */
module SchedulerWitness {
  import opened Text
  import opened PlatformJson
  import opened ReconciliationItem
  import opened ReconciliationPage
  import opened ReconciliationRunner
  import opened ReconciliationScheduler
  import opened SchedulerHistory
  import opened SchedulerBatches

  /** A cycle whose page is converted to these items, and whose batch the ledger refuses. */
  predicate Refused(cfg: Config, cursor: int, input: Input, items: seq<Item>) {
    && input.now >= 0 && input.fetched.Ok? && input.fault.None? && input.admin.Exited? && items != []
    && ItemsOf(cfg.lib, input.fetched.value.payload, RequestOf(cfg, input, input.fetched.value.sha256), cursor) == Ok(items)
  }

  lemma RefusedRun(hash: Hash, cfg: Config, st: SchedulerState, input: Input, items: seq<Item>)
    requires Refused(cfg, st.cursor, input, items)
    ensures var failed := FailedState(st, input.now, AdminFailed(input.admin.message));
            var sha256 := input.fetched.value.sha256;
            RunOf(hash, cfg, st, [input]).writes
            == [Response(sha256), Manifest(sha256, st.cursor, items), Batch(items, st.version), SaveState(failed, [])]
  {
    hide ItemsOf;
    var sha256 := input.fetched.value.sha256;
    var ws := [Response(sha256), Manifest(sha256, st.cursor, items), Batch(items, st.version)];
    var f := AdminFailed(input.admin.message);
    assert CycleOf(cfg, st.cursor, st.version, input) == Cycle(ws, Err(f));
    var step := StepOf(hash, cfg, st, input);
    assert step.writes == ws + [SaveState(FailedState(st, input.now, f), [])] && step.end == Some(Stopped);
  }

  /** A ledger that refuses a batch, and another run of the same kind: the batch is handed over again, with
      the same positions. No crash is needed. */
  lemma RefusedTwice(hash: Hash, s: Session, items: seq<Item>)
    requires items != [] && |s.inputs| == 1 && s.cut == 4 && Begin(s.setup, None, 1, s.now).Ok?
    requires Refused(Begin(s.setup, None, 1, s.now).value.0, s.setup.cursor, s.inputs[0], items)
    ensures var log := History(hash, [s, s]);
            |log| == 8 && log[2] == Batch(items, s.setup.version) && log[6] == log[2] && !BatchesAscend(log)
  {
    hide Refused, ItemsOf, Blank, RunOf;
    var (cfg, st) := Begin(s.setup, None, 1, s.now).value;
    var input := s.inputs[0];
    assert s.inputs == [input];
    RefusedRun(hash, cfg, st, input, items);
    var first := RunOf(hash, cfg, st, [input]).writes;
    OneSession(hash, s);
    assert first[..4] == first;
    var failed := first[3].state;
    assert first == first[..3] + [first[3]];
    StateSnoc(first[..3], first[3]);
    assert Begin(s.setup, Some(failed), 1, s.now) == Ok((cfg, failed));
    RefusedRun(hash, cfg, failed, input, items);
    var again := RunOf(hash, cfg, failed, [input]).writes;
    assert again[..4] == again;
    assert [s, s][..1] == [s];
    var log := History(hash, [s, s]);
    assert log == first + again;
    assert log[2].items[0].position == log[6].items[0].position;
  }

  lemma OneSession(hash: Hash, s: Session)
    ensures History(hash, [s]) == Cut(SessionWrites(hash, [], s), s.cut)
  {
    assert [s][..0] == [];
    assert [] + Cut(SessionWrites(hash, [], s), s.cut) == Cut(SessionWrites(hash, [], s), s.cut);
  }

  const PLAIN_LIBRARY := Library(_ => None, _ => "", t => t, _ => None)

  const ATTEMPT := map["id" := Str("a"), "challenge" := Str("c"), "owner" := Str("o")]

  const REFUSED := Session(
    Setup(PLAIN_LIBRARY, "c", "r", None, 0, 0, 1000, Some(Context("monitor", "g", "c")), "x"), 0,
    [Input(0, Ok(Fetched(Arr([Obj(ATTEMPT)]), "d")), Exited("refused"), None)], 4)

  lemma AttemptKeys(key: string)
    ensures key in ATTEMPT <==> key == "id" || key == "challenge" || key == "owner"
    ensures key in ATTEMPT ==> |key| == 2 || |key| == 9 || |key| == 5
  {}

  /** The fields that the registry reads. */
  lemma AttemptFields()
    ensures First(ATTEMPT, ["attempt_id"] + ["attemptId", "attempt", "id"]) == Str("a")
    ensures First(ATTEMPT, ["challenge_id"] + ["challengeId", "challenge"]) == Str("c")
    ensures First(ATTEMPT, ["owner"] + ["credited_owner", "creditedOwner", "owner", "user", "agent"]) == Str("o")
  {
    hide First;
    forall key: string ensures key in ATTEMPT ==> |key| == 2 || |key| == 9 || |key| == 5 { AttemptKeys(key); }
    FirstIs(ATTEMPT, ["attempt_id"] + ["attemptId", "attempt", "id"], 3);
    FirstIs(ATTEMPT, ["challenge_id"] + ["challengeId", "challenge"], 2);
    FirstIs(ATTEMPT, ["owner"] + ["credited_owner", "creditedOwner", "owner", "user", "agent"], 0);
  }

  /** No key of these is one of the attempt's. */
  predicate Strange(keys: seq<string>) {
    forall i :: 0 <= i < |keys| ==> |keys[i]| != 2 && |keys[i]| != 9 && |keys[i]| != 5
  }

  lemma StrangeNull(keys: seq<string>)
    requires Strange(keys)
    ensures First(ATTEMPT, keys) == Null
  {
    hide First;
    forall i | 0 <= i < |keys| ensures keys[i] !in ATTEMPT { AttemptKeys(keys[i]); }
    FirstIsNull(ATTEMPT, keys);
  }

  lemma RawNull()
    ensures First(ATTEMPT, ["raw_score"] + ["rawScore", "original_score", "originalScore"]) == Null
  {
    hide First;
    AttemptKeys("raw_score");
    StrangeNull(["rawScore", "original_score", "originalScore"]);
    FirstSkips("raw_score", ["rawScore", "original_score", "originalScore"]);
  }

  /** A key that the attempt does not have is skipped. */
  lemma FirstSkips(key: string, keys: seq<string>)
    requires key !in ATTEMPT
    ensures First(ATTEMPT, [key] + keys) == First(ATTEMPT, keys)
  {
    assert ([key] + keys)[1..] == keys;
  }

  lemma EffectiveNull()
    ensures First(ATTEMPT, ["effective_score"] + ["effectiveScore", "credited_score", "creditedScore", "score"]) == Null
  {
    hide First;
    AttemptKeys("score");
    AttemptKeys("effective_score");
    AttemptKeys("effectiveScore");
    AttemptKeys("credited_score");
    AttemptKeys("creditedScore");
    FirstIsNull(ATTEMPT, ["effectiveScore", "credited_score", "creditedScore", "score"]);
    FirstSkips("effective_score", ["effectiveScore", "credited_score", "creditedScore", "score"]);
  }

  lemma BundleNull()
    ensures First(ATTEMPT, ["bundle_revision"] + ["bundleRevision", "bundle_hash", "bundleHash"]) == Null
  {
    hide First;
    StrangeNull(["bundleRevision", "bundle_hash", "bundleHash"]);
    AttemptKeys("bundle_revision");
    FirstSkips("bundle_revision", ["bundleRevision", "bundle_hash", "bundleHash"]);
  }

  lemma AttemptNulls()
    ensures First(ATTEMPT, ["raw_score"] + ["rawScore", "original_score", "originalScore"]) == Null
    ensures First(ATTEMPT, ["effective_score"] + ["effectiveScore", "credited_score", "creditedScore", "score"]) == Null
    ensures First(ATTEMPT, ["bundle_revision"] + ["bundleRevision", "bundle_hash", "bundleHash"]) == Null
    ensures First(ATTEMPT, ["challengeId", "challenge_id"]) == Null
  {
    hide First;
    RawNull();
    EffectiveNull();
    BundleNull();
    StrangeNull(["challengeId", "challenge_id"]);
  }

  lemma AttemptRoute()
    ensures First(ATTEMPT, ["route"] + ["route", "url", "path"]) == Null
    ensures First(ATTEMPT, ["attemptId", "attempt_id", "id"]) == Str("a")
  {
    hide First;
    forall key: string ensures key in ATTEMPT ==> |key| == 2 || |key| == 9 || |key| == 5 { AttemptKeys(key); }
    AttemptKeys("route");
    FirstIsNull(ATTEMPT, ["route"] + ["route", "url", "path"]);
    FirstIs(ATTEMPT, ["attemptId", "attempt_id", "id"], 2);
  }

  lemma NotBlank(t: string)
    requires |t| == 1 && !IsSpace(t[0])
    ensures !Blank(t)
  {}

  lemma LettersNotBlank()
    ensures !Blank("a") && !Blank("c") && !Blank("o") && !Blank("r")
  {
    hide Blank;
    NotBlank("a");
    NotBlank("c");
    NotBlank("o");
    NotBlank("r");
  }

  lemma AttemptIdentity()
    ensures IdentityOf(PLAIN_LIBRARY, Obj(ATTEMPT)) == Ok(Identity("a", "c", None))
  {
    AttemptFields();
    AttemptNulls();
    AttemptRoute();
    LettersNotBlank();
    hide First, Blank;
  }

  lemma NestedNull(keys: seq<string>)
    requires First(ATTEMPT, keys) == Null
    ensures NestedFirst(PLAIN_LIBRARY, ATTEMPT, keys) == Null
  {
    hide First;
    forall key: string ensures key in ATTEMPT ==> |key| == 2 || |key| == 9 || |key| == 5 { AttemptKeys(key); }
    AttemptKeys("scorecard");
    FirstIsNull(ATTEMPT, ["scorecard"]);
    FirstIsNull(ATTEMPT, ["scoringDetails"]);
    FirstIsNull(ATTEMPT, ["scoring_details"]);
    NoParents([Null, Null, Null], keys);
  }

  lemma {:induction false} NoParents(parents: seq<Json>, keys: seq<string>)
    requires forall i :: 0 <= i < |parents| ==> parents[i] == Null
    ensures FirstIn(PLAIN_LIBRARY, parents, keys) == Null
  {
    if parents != [] { NoParents(parents[1..], keys); }
  }

  lemma NoAntiCheat()
    ensures NestedFirst(PLAIN_LIBRARY, ATTEMPT, ["anti_cheat", "antiCheat", "anticheat"]) == Null
  {
    hide First, NestedFirst;
    AttemptKeys("anti_cheat");
    AttemptKeys("antiCheat");
    AttemptKeys("anticheat");
    FirstIsNull(ATTEMPT, ["anti_cheat", "antiCheat", "anticheat"]);
    NestedNull(["anti_cheat", "antiCheat", "anticheat"]);
  }

  lemma NoRawScore()
    ensures NestedFirst(PLAIN_LIBRARY, ATTEMPT, ["raw_score", "rawScore", "original_score", "originalScore"]) == Null
  {
    hide First, NestedFirst;
    AttemptKeys("raw_score");
    StrangeNull(["rawScore", "original_score", "originalScore"]);
    FirstSkips("raw_score", ["rawScore", "original_score", "originalScore"]);
    var keys := ["raw_score", "rawScore", "original_score", "originalScore"];
    assert keys == ["raw_score"] + ["rawScore", "original_score", "originalScore"];
    NestedNull(keys);
  }

  lemma NoEffectiveScore()
    ensures NestedFirst(PLAIN_LIBRARY, ATTEMPT, ["effective_score", "effectiveScore", "credited_score", "creditedScore"])
         == Null
  {
    hide First, NestedFirst;
    StrangeNull(["effective_score", "effectiveScore", "credited_score", "creditedScore"]);
    NestedNull(["effective_score", "effectiveScore", "credited_score", "creditedScore"]);
  }

  lemma AttemptScores()
    ensures NestedFirst(PLAIN_LIBRARY, ATTEMPT, ["anti_cheat", "antiCheat", "anticheat"]) == Null
    ensures NestedFirst(PLAIN_LIBRARY, ATTEMPT, ["raw_score", "rawScore", "original_score", "originalScore"]) == Null
    ensures NestedFirst(PLAIN_LIBRARY, ATTEMPT, ["effective_score", "effectiveScore", "credited_score", "creditedScore"])
         == Null
  {
    hide NestedFirst;
    NoAntiCheat();
    NoRawScore();
    NoEffectiveScore();
  }

  lemma ReadScores(lib: Library, fields: map<string, Json>, antiCheat: Option<seq<Signal>>)
    ensures var r := Read(lib, fields, antiCheat);
            && r.rawScore == Number(NestedFirst(lib, fields, ["raw_score", "rawScore", "original_score", "originalScore"]))
            && r.effective == Number(NestedFirst(lib, fields, ["effective_score", "effectiveScore", "credited_score",
                                                               "creditedScore"]))
  {
    hide CompletePenalty, NestedFirst, First, PageEvidence, Status, Evidence, Rescore, Owner, Bundle, Flag, Number;
  }

  lemma AttemptBuilds(q: Request)
    requires q.challenge == "c" && q.route == "r" && q.observedAt >= 0
    ensures BuildItem(PLAIN_LIBRARY, Obj(ATTEMPT), q, "a", "r", 0).Ok?
  {
    AttemptNulls();
    AttemptRoute();
    AttemptScores();
    LettersNotBlank();
    ReadScores(PLAIN_LIBRARY, ATTEMPT, None);
    hide First, NestedFirst, Blank, Read, FactsOf, StateOf, Complete;
  }

  lemma AttemptPageConverts(q: Request)
    requires q.challenge == "c" && q.route == "r" && q.observedAt >= 0
    ensures ItemsOf(PLAIN_LIBRARY, Arr([Obj(ATTEMPT)]), q, 0).Ok?
    ensures ItemsOf(PLAIN_LIBRARY, Arr([Obj(ATTEMPT)]), q, 0).value != []
  {
    hide IdentityOf, BuildItem;
    AttemptIdentity();
    AttemptBuilds(q);
    var page := [Obj(ATTEMPT)];
    assert Problem(PLAIN_LIBRARY, page, "c", 1, {} + {"a"}) == None;
    assert Problem(PLAIN_LIBRARY, page, "c", 0, {}) == None;
    assert ItemsFrom(PLAIN_LIBRARY, page, q, 0, 1) == Ok([]);
    assert BuildItem(PLAIN_LIBRARY, page[0], q, "a", RouteOf(Identity("a", "c", None), q.route), 0 + 0).Ok?;
    assert ItemsFrom(PLAIN_LIBRARY, page, q, 0, 0).Ok?;
  }

  /** Two runs whose ledger refuses the batch: a concrete history in which positions are repeated. */
  lemma PositionsRepeat(hash: Hash)
    ensures StartedAt([REFUSED, REFUSED], 0)
    ensures !BatchesAscend(History(hash, [REFUSED, REFUSED]))
  {
    hide ItemsOf, History, BatchesAscend, Blank;
    LettersNotBlank();
    var s := REFUSED;
    var cfg := Begin(s.setup, None, 1, s.now).value.0;
    var input := s.inputs[0];
    var q := RequestOf(cfg, input, "d");
    AttemptPageConverts(q);
    RefusedTwice(hash, s, ItemsOf(PLAIN_LIBRARY, Arr([Obj(ATTEMPT)]), q, 0).value);
  }
}
