/** How a cycle and a scheduler run go, decided from what comes in. */
module ReconciliationOutcome {
  import opened Text
  import opened PlatformJson
  import opened ReconciliationItem
  import opened ReconciliationPage
  import opened ReconciliationAttempts
  import opened ReconciliationRunner
  import opened ReconciliationScheduler

  // --- one cycle ---

  /** What the converter makes of the fetched page. */
  function Converted(cfg: Config, cursor: int, input: Input): Result<seq<Item>, Error>
    requires input.fetched.Ok?
  {
    ItemsOf(cfg.lib, input.fetched.value.payload,
            Request(cfg.challenge, cfg.route, input.now, input.fetched.value.sha256, cfg.expectedOwner), cursor)
  }

  /** The page is fetched, saved and converted. */
  predicate PageReady(cfg: Config, cursor: int, input: Input) {
    && input.now >= 0 && input.fetched.Ok? && input.fault != Some(0) && Converted(cfg, cursor, input).Ok?
  }

  predicate ItemsReady(cfg: Config, cursor: int, input: Input) {
    PageReady(cfg, cursor, input) && input.fault != Some(1)
  }

  /** The ledger takes the batch. */
  ghost predicate Taken(cfg: Config, cursor: int, version: int, input: Input)
    requires input.fetched.Ok? && Converted(cfg, cursor, input).Ok?
  {
    input.admin.Replied? && Covering(cfg, input.admin.reply, version, |Converted(cfg, cursor, input).value|)
  }

  /** The cycle ends well. */
  ghost predicate Succeeds(cfg: Config, cursor: int, version: int, input: Input) {
    && ItemsReady(cfg, cursor, input)
    && (Converted(cfg, cursor, input).value == [] || (Taken(cfg, cursor, version, input) && input.fault != Some(2)))
  }

  /** When a cycle ends well, decided from what comes in. */
  lemma CycleSucceeds(cfg: Config, cursor: int, version: int, input: Input)
    ensures CycleOf(cfg, cursor, version, input).result.Ok? <==> Succeeds(cfg, cursor, version, input)
  {
    hide ItemsOf, Accept, Covering;
    if ItemsReady(cfg, cursor, input) {
      AcceptedReply(cfg, input.admin, version, |Converted(cfg, cursor, input).value|);
    }
  }

  function Field(reply: Json, key: string): Json { if reply.Obj? then Get(reply.fields, key) else Null }

  /** How many items the reply calls applied. */
  function AppliedCount(reply: Json): nat {
    if Field(reply, "items").Arr? then |AppliedAt(Field(reply, "items").items)| else 0
  }

  /** The summary of a batch that was taken. */
  predicate BatchSummary(s: Summary, cursor: int, input: Input, count: nat)
    requires input.fetched.Ok? && input.admin.Replied?
  {
    && s.status == "batch_complete" && s.sha256 == input.fetched.value.sha256 && s.itemCount == count
    && s.cursor == cursor && s.observedAt == input.now
    && s.applied == AppliedCount(input.admin.reply) && (s.chief <==> AppliedCount(input.admin.reply) >= 1)
    && Field(input.admin.reply, "next_expected_version").Int?
    && s.nextVersion == Some(Field(input.admin.reply, "next_expected_version").n)
  }

  predicate EmptySummary(s: Summary, cursor: int, input: Input)
    requires input.fetched.Ok?
  {
    && s.status == "no_items" && s.sha256 == input.fetched.value.sha256 && s.itemCount == 0
    && s.cursor == cursor && s.observedAt == input.now && s.applied == 0 && !s.chief && s.nextVersion == None
  }

  /** What a cycle writes, however far it gets: the response; the manifest, even when empty; the batch, once there
      is an item; and the run file last, if the ledger takes the batch. */
  lemma CycleFiles(cfg: Config, cursor: int, version: int, input: Input)
    ensures var cycle := CycleOf(cfg, cursor, version, input);
            if input.now < 0 || input.fetched.Err? || input.fault == Some(0) then cycle.writes == []
            else
              var saved := Response(input.fetched.value.sha256);
              if Converted(cfg, cursor, input).Err? || input.fault == Some(1) then cycle.writes == [saved]
              else
                var items := Converted(cfg, cursor, input).value;
                var manifest := Manifest(input.fetched.value.sha256, cursor, items);
                if items == [] then
                  && cycle.writes == [saved, manifest] && cycle.result.Ok? && cycle.result.value.items == []
                  && EmptySummary(cycle.result.value.summary, cursor, input)
                else if !Taken(cfg, cursor, version, input) || input.fault == Some(2) then
                  cycle.writes == [saved, manifest, Batch(items, version)]
                else
                  && cycle.result.Ok? && cycle.result.value.items == items
                  && BatchSummary(cycle.result.value.summary, cursor, input, |items|)
                  && cycle.writes == [saved, manifest, Batch(items, version), RunFile(cycle.result.value.summary)]
  {
    hide ItemsOf, Accept, Covering, AppliedAt, Get;
    if ItemsReady(cfg, cursor, input) {
      AcceptedReply(cfg, input.admin, version, |Converted(cfg, cursor, input).value|);
      CoveringFields(cfg, input.admin, version, |Converted(cfg, cursor, input).value|);
    }
  }

  lemma CoveringFields(cfg: Config, admin: Admin, version: int, count: nat)
    ensures admin.Replied? && Covering(cfg, admin.reply, version, count) ==>
              && admin.reply.Obj? && Get(admin.reply.fields, "items").Arr?
              && Get(admin.reply.fields, "next_expected_version").Int?
  {
    hide Get, HasFate;
  }

  // --- failures ---

  /** The reply is fine down to an item whose status is a list or an object, which cannot be looked up in a set. */
  ghost predicate CrashingReply(cfg: Config, reply: Json, version: int, count: nat) {
    && reply.Obj?
    && Get(reply.fields, "status") == Str("batch-complete")
    && Get(reply.fields, "campaign_id") == Str(cfg.campaign) && Get(reply.fields, "challenge_id") == Str(cfg.challenge)
    && Get(reply.fields, "next_expected_version").Int? && Get(reply.fields, "next_expected_version").n >= version
    && Get(reply.fields, "items").Arr? && |Get(reply.fields, "items").items| == count
    && CrashingItems(Get(reply.fields, "items").items)
  }

  ghost predicate CrashingItems(summaries: seq<Json>) {
    exists k :: 0 <= k < |summaries| && Unhashable(summaries[k]) && forall j :: 0 <= j < k ==> HasFate(summaries[j])
  }

  predicate Unhashable(summary: Json) {
    summary.Obj? && (Get(summary.fields, "status").Arr? || Get(summary.fields, "status").Obj?)
  }

  lemma {:induction false} FlagsCrash(summaries: seq<Json>)
    ensures AppliedFlags(summaries) == Err(UnhashableStatus) <==> CrashingItems(summaries)
  {
    hide Get, HasFate, Unhashable;
    if summaries != [] {
      var front, last := summaries[..|summaries| - 1], summaries[|summaries| - 1];
      FlagsCrash(front);
      FlagsMean(front);
      OneFate(last);
      LastCrash(summaries);
      LastFlag(summaries);
    }
  }

  lemma LastFlag(summaries: seq<Json>)
    requires summaries != []
    ensures var front, last := summaries[..|summaries| - 1], summaries[|summaries| - 1];
            AppliedFlags(summaries) == Err(UnhashableStatus)
            <==> AppliedFlags(front) == Err(UnhashableStatus) || (AppliedFlags(front).Ok? && Unhashable(last))
  {
    hide Get;
  }

  lemma OneFate(v: Json)
    ensures !(HasFate(v) && Unhashable(v))
  {
    hide Get;
  }

  lemma LastCrash(summaries: seq<Json>)
    requires summaries != []
    ensures var front, last := summaries[..|summaries| - 1], summaries[|summaries| - 1];
            CrashingItems(summaries)
            <==> CrashingItems(front) || ((forall x :: x in front ==> HasFate(x)) && Unhashable(last))
  {
    hide HasFate, Unhashable;
    var front, last := summaries[..|summaries| - 1], summaries[|summaries| - 1];
    assert forall j :: 0 <= j < |front| ==> front[j] == summaries[j];
    if CrashingItems(summaries) {
      var k :| 0 <= k < |summaries| && Unhashable(summaries[k]) && forall j :: 0 <= j < k ==> HasFate(summaries[j]);
      if k < |front| { assert Unhashable(front[k]) && forall j :: 0 <= j < k ==> HasFate(front[j]); }
    }
    if CrashingItems(front) {
      var k :| 0 <= k < |front| && Unhashable(front[k]) && forall j :: 0 <= j < k ==> HasFate(front[j]);
      assert Unhashable(summaries[k]) && forall j :: 0 <= j < k ==> HasFate(summaries[j]);
    }
    if (forall x :: x in front ==> HasFate(x)) && Unhashable(last) {
      assert forall j :: 0 <= j < |front| ==> front[j] in front;
      assert Unhashable(summaries[|front|]) && forall j :: 0 <= j < |front| ==> HasFate(summaries[j]);
    }
  }

  /** The cycle's page crashes the converter. */
  predicate PageCrashes(cfg: Config, cursor: int, input: Input) {
    && input.now >= 0 && input.fetched.Ok? && input.fault != Some(0)
    && Converted(cfg, cursor, input) == Err(UnhashableMode)
  }

  /** Of all failures, exactly these two escape the scheduler's `except` clause: a mode or a status that cannot
      be looked up. */
  lemma CycleCrashes(cfg: Config, cursor: int, version: int, input: Input)
    ensures var result := CycleOf(cfg, cursor, version, input).result;
            result.Err? && !Handled(result.error)
            <==> || PageCrashes(cfg, cursor, input)
                 || (&& ItemsReady(cfg, cursor, input) && Converted(cfg, cursor, input).value != []
                     && input.admin.Replied?
                     && CrashingReply(cfg, input.admin.reply, version, |Converted(cfg, cursor, input).value|))
  {
    hide ItemsOf, Covering, AppliedFlags, Get, CrashingItems, Count;
    if input.admin.Replied? && input.admin.reply.Obj? && Get(input.admin.reply.fields, "items").Arr? {
      FlagsCrash(Get(input.admin.reply.fields, "items").items);
      FlagErrors(Get(input.admin.reply.fields, "items").items);
    }
  }

  lemma {:induction false} FlagErrors(summaries: seq<Json>)
    ensures AppliedFlags(summaries).Err? ==>
              AppliedFlags(summaries).error == UnhashableStatus || AppliedFlags(summaries).error.AdminRefused?
  {
    hide Get;
    if summaries != [] { FlagErrors(summaries[..|summaries| - 1]); }
  }
}
