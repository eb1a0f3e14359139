/** One read-only reconciliation cycle and the files it writes. */
module ReconciliationRunner {
  import opened Text
  import opened PlatformJson
  import opened ReconciliationItem
  import opened ReconciliationPage

  /** Why a cycle failed. */
  datatype Failure =
    | NegativeTime
    | FetchFailed(message: string)
    | Unconvertible(error: Error)
    | WriteFailed
    | AdminFailed(message: string)
    | AdminNotJson
    | AdminRefused(what: string)
    | UnhashableStatus

  /** The scheduler catches `OSError`, `RuntimeError` and `ValueError`, but no `TypeError`. */
  predicate Handled(f: Failure) {
    !f.UnhashableStatus? && (f.Unconvertible? ==> Caught(f.error))
  }

  datatype Summary = Summary(status: string, sha256: string, itemCount: nat, cursor: int, observedAt: int,
                             chief: bool, applied: nat, nextVersion: Option<int>)

  datatype Wake = Wake(campaign: string, challenge: string, stream: string, version: int, cursor: int,
                       sha256: string)

  datatype SchedulerState = SchedulerState(challenge: string, route: string, campaign: string, contextSha256: string,
                                           cursor: int, version: int, lastWake: int, cycles: int, updatedAt: int,
                                           lastStatus: Option<string>, lastError: Option<Failure>)

  /** One thing that happens to the outside: a file is replaced atomically, or a batch reaches the
      ledger. The save of a scheduler state notes the items of the cycle that it completes. */
  datatype Write =
    | Response(sha256: string)
    | Manifest(sha256: string, cursor: int, items: seq<Item>)
    | Batch(items: seq<Item>, version: int)
    | RunFile(summary: Summary)
    | ChiefWake(path: string, wake: Wake)
    | SaveState(state: SchedulerState, issued: seq<Item>)

  /** What the outside world does in a cycle. `fault` is the number of the cycle's own files that
      are written before a write fails. */
  datatype Input = Input(now: int, fetched: Result<Fetched, string>, admin: Admin, fault: Option<nat>)

  datatype Fetched = Fetched(payload: Json, sha256: string)

  datatype Admin = Exited(message: string) | Garbled | Replied(reply: Json)

  /** What a scheduler run is set up with. */
  datatype Config = Config(lib: Library, challenge: string, route: string, campaign: string, contextSha256: string,
                           expectedOwner: Option<string>)

  datatype Outcome = Outcome(summary: Summary, items: seq<Item>)

  /** The statuses of the ledger's item summaries, if all are acceptable: whether each was applied. */
  function AppliedFlags(summaries: seq<Json>): Result<seq<bool>, Failure> {
    if summaries == [] then Ok([])
    else
      match AppliedFlags(summaries[..|summaries| - 1])
      case Err(f) => Err(f)
      case Ok(flags) =>
        var last := summaries[|summaries| - 1];
        if !last.Obj? then Err(AdminRefused("item summary"))
        else
          var status := Get(last.fields, "status");
          if status.Arr? || status.Obj? then Err(UnhashableStatus)
          else if !(status == Str("applied") || status == Str("duplicate") || status == Str("stale"))
          then Err(AdminRefused("item summary"))
          else Ok(flags + [status == Str("applied")])
  }

  function Count(flags: seq<bool>): (n: nat)
    ensures n <= |flags|
  {
    if flags == [] then 0
    else Count(flags[..|flags| - 1]) + if flags[|flags| - 1] then 1 else 0
  }

  /** What the runner accepts from the ledger: the next version and the number of applied items. */
  function Accept(cfg: Config, admin: Admin, version: int, count: nat): Result<(int, nat), Failure> {
    match admin
    case Exited(message) => Err(AdminFailed(message))
    case Garbled => Err(AdminNotJson)
    case Replied(reply) =>
      if !reply.Obj? then Err(AdminRefused("result"))
      else if Get(reply.fields, "status") != Str("batch-complete") then Err(AdminRefused("status"))
      else if Get(reply.fields, "campaign_id") != Str(cfg.campaign) then Err(AdminRefused("campaign"))
      else if Get(reply.fields, "challenge_id") != Str(cfg.challenge) then Err(AdminRefused("challenge"))
      else
        var next := Get(reply.fields, "next_expected_version");
        if !next.Int? || next.n < version then Err(AdminRefused("version"))
        else
          var summaries := Get(reply.fields, "items");
          if !summaries.Arr? || |summaries.items| != count then Err(AdminRefused("coverage"))
          else
            match AppliedFlags(summaries.items)
            case Err(f) => Err(f)
            case Ok(flags) => Ok((next.n, Count(flags)))
  }

  function RequestOf(cfg: Config, input: Input, sha256: string): Request {
    Request(cfg.challenge, cfg.route, input.now, sha256, cfg.expectedOwner)
  }

  /** The writes of a cycle and how it ends. */
  datatype Cycle = Cycle(writes: seq<Write>, result: Result<Outcome, Failure>)

  function SummaryOf(status: string, fetched: Fetched, items: seq<Item>, cursor: int, now: int,
                     applied: nat, next: Option<int>): Summary
  {
    Summary(status, fetched.sha256, |items|, cursor, now, applied > 0, applied, next)
  }

  /** `run_cycle`, as the scheduler calls it. */
  function CycleOf(cfg: Config, cursor: int, version: int, input: Input): Cycle {
    if input.now < 0 then Cycle([], Err(NegativeTime))
    else if input.fetched.Err? then Cycle([], Err(FetchFailed(input.fetched.error)))
    else if input.fault == Some(0) then Cycle([], Err(WriteFailed))
    else
      var fetched := input.fetched.value;
      var response := Response(fetched.sha256);
      match ItemsOf(cfg.lib, fetched.payload, RequestOf(cfg, input, fetched.sha256), cursor)
      case Err(e) => Cycle([response], Err(Unconvertible(e)))
      case Ok(items) =>
        if input.fault == Some(1) then Cycle([response], Err(WriteFailed))
        else
          var manifest := Manifest(fetched.sha256, cursor, items);
          if items == [] then
            Cycle([response, manifest],
                  Ok(Outcome(SummaryOf("no_items", fetched, items, cursor, input.now, 0, None), items)))
          else
            var batch := [response, manifest, Batch(items, version)];
            match Accept(cfg, input.admin, version, |items|)
            case Err(f) => Cycle(batch, Err(f))
            case Ok((next, applied)) =>
              if input.fault == Some(2) then Cycle(batch, Err(WriteFailed))
              else
                var summary := SummaryOf("batch_complete", fetched, items, cursor, input.now, applied, Some(next));
                Cycle(batch + [RunFile(summary)], Ok(Outcome(summary, items)))
  }

  /** The state file and the wakes of a series of writes. */
  function StateAfter(log: seq<Write>): Option<SchedulerState> {
    if log == [] then None
    else
      var last := log[|log| - 1];
      if last.SaveState? then Some(last.state) else StateAfter(log[..|log| - 1])
  }

  function WakesAfter(log: seq<Write>): map<string, Wake> {
    if log == [] then map[]
    else
      var last := log[|log| - 1];
      var before := WakesAfter(log[..|log| - 1]);
      if last.ChiefWake? then before[last.path := last.wake] else before
  }

  /** The items most recently handed to the ledger. */
  function LastBatch(log: seq<Write>): Option<seq<Item>> {
    if log == [] then None
    else
      var last := log[|log| - 1];
      if last.Batch? then Some(last.items) else LastBatch(log[..|log| - 1])
  }

  /** The disk: the two files that are read back, and all that was written, in order. */
  class Disk {
    var state: Option<SchedulerState>
    var wakes: map<string, Wake>
    ghost var log: seq<Write>

    ghost predicate Valid()
      reads this
    {
      state == StateAfter(log) && wakes == WakesAfter(log)
    }

    constructor ()
      ensures Valid() && log == []
    {
      state, wakes, log := None, map[], [];
    }

    method Put(w: Write)
      requires Valid()
      modifies this
      ensures Valid() && log == old(log) + [w]
    {
      if w.SaveState? { state := Some(w.state); }
      if w.ChiefWake? { wakes := wakes[w.path := w.wake]; }
      log := log + [w];
      assert log[..|log| - 1] == old(log);
    }
  }

  /** The loop over the item summaries. */
  method CountApplied(summaries: seq<Json>) returns (r: Result<nat, Failure>)
    ensures r == match AppliedFlags(summaries)
                 case Err(f) => Err(f)
                 case Ok(flags) => Ok(Count(flags))
  {
    var applied: nat := 0;
    for i := 0 to |summaries|
      invariant AppliedFlags(summaries[..i]).Ok?
      invariant applied == Count(AppliedFlags(summaries[..i]).value)
    {
      assert summaries[..i + 1][..i] == summaries[..i];
      var summary := summaries[i];
      if !summary.Obj? {
        FlagsStop(summaries, i + 1);
        return Err(AdminRefused("item summary"));
      }
      var status := Get(summary.fields, "status");
      if status.Arr? || status.Obj? {
        FlagsStop(summaries, i + 1);
        return Err(UnhashableStatus);
      }
      if !(status == Str("applied") || status == Str("duplicate") || status == Str("stale")) {
        FlagsStop(summaries, i + 1);
        return Err(AdminRefused("item summary"));
      }
      if status == Str("applied") { applied := applied + 1; }
    }
    assert summaries[..|summaries|] == summaries;
    return Ok(applied);
  }

  /** The first bad summary decides. */
  lemma {:induction false} FlagsStop(summaries: seq<Json>, i: nat)
    requires i <= |summaries| && AppliedFlags(summaries[..i]).Err?
    ensures AppliedFlags(summaries) == AppliedFlags(summaries[..i])
  {
    if i == |summaries| {
      assert summaries[..i] == summaries;
    } else {
      var front := summaries[..|summaries| - 1];
      assert front[..i] == summaries[..i];
      FlagsStop(front, i);
    }
  }

  /** `run_cycle` on the disk. */
  method RunCycle(disk: Disk, cfg: Config, cursor: int, version: int, input: Input)
    returns (r: Result<Outcome, Failure>)
    requires disk.Valid()
    modifies disk
    ensures disk.Valid()
    ensures disk.log == old(disk.log) + CycleOf(cfg, cursor, version, input).writes
    ensures r == CycleOf(cfg, cursor, version, input).result
  {
    hide ItemsOf, Accept, StateAfter, WakesAfter, SummaryOf, RequestOf;
    ghost var before := disk.log;
    if input.now < 0 { return Err(NegativeTime); }
    if input.fetched.Err? { return Err(FetchFailed(input.fetched.error)); }
    if input.fault == Some(0) { return Err(WriteFailed); }
    var fetched := input.fetched.value;
    disk.Put(Response(fetched.sha256));
    var built := BuildItems(cfg.lib, fetched.payload, RequestOf(cfg, input, fetched.sha256), cursor);
    if built.Err? { return Err(Unconvertible(built.error)); }
    var items := built.value;
    if input.fault == Some(1) { return Err(WriteFailed); }
    disk.Put(Manifest(fetched.sha256, cursor, items));
    if items == [] { return Ok(Outcome(SummaryOf("no_items", fetched, items, cursor, input.now, 0, None), items)); }
    disk.Put(Batch(items, version));
    assert disk.log == before + [Response(fetched.sha256), Manifest(fetched.sha256, cursor, items), Batch(items, version)];
    var accepted := CheckReply(cfg, input.admin, version, |items|);
    if accepted.Err? { return Err(accepted.error); }
    if input.fault == Some(2) { return Err(WriteFailed); }
    var summary :=
      SummaryOf("batch_complete", fetched, items, cursor, input.now, accepted.value.1, Some(accepted.value.0));
    disk.Put(RunFile(summary));
    return Ok(Outcome(summary, items));
  }

  /** The checks of the ledger's reply. */
  method CheckReply(cfg: Config, admin: Admin, version: int, count: nat) returns (r: Result<(int, nat), Failure>)
    ensures r == Accept(cfg, admin, version, count)
  {
    if admin.Exited? { return Err(AdminFailed(admin.message)); }
    if admin.Garbled? { return Err(AdminNotJson); }
    var reply := admin.reply;
    if !reply.Obj? { return Err(AdminRefused("result")); }
    if Get(reply.fields, "status") != Str("batch-complete") { return Err(AdminRefused("status")); }
    if Get(reply.fields, "campaign_id") != Str(cfg.campaign) { return Err(AdminRefused("campaign")); }
    if Get(reply.fields, "challenge_id") != Str(cfg.challenge) { return Err(AdminRefused("challenge")); }
    var next := Get(reply.fields, "next_expected_version");
    if !next.Int? || next.n < version { return Err(AdminRefused("version")); }
    var summaries := Get(reply.fields, "items");
    if !summaries.Arr? || |summaries.items| != count { return Err(AdminRefused("coverage")); }
    var applied := CountApplied(summaries.items);
    if applied.Err? { return Err(applied.error); }
    return Ok((next.n, applied.value));
  }

  /** What a cycle that ends well guarantees. */
  lemma CycleOutcome(cfg: Config, cursor: int, version: int, input: Input)
    requires CycleOf(cfg, cursor, version, input).result.Ok?
    ensures var o := CycleOf(cfg, cursor, version, input).result.value;
            && cursor >= 0
            && o.summary.itemCount == |o.items|
            && (forall k :: 0 <= k < |o.items| ==> o.items[k].position == cursor + k)
            && (forall j, k :: 0 <= j < k < |o.items| ==> o.items[j].attempt != o.items[k].attempt)
            && o.summary.applied <= |o.items|
            && (o.summary.chief <==> o.summary.applied > 0)
            && (o.summary.nextVersion.Some? ==> o.summary.nextVersion.value >= version)
            && (o.summary.applied > 0 ==> o.summary.nextVersion.Some?)
            && input.fetched.Ok? && o.summary.sha256 == input.fetched.value.sha256
            && o.summary.cursor == cursor
            && (o.items != [] ==> LastBatch(CycleOf(cfg, cursor, version, input).writes) == Some(o.items))
  {
    hide ItemsOf, AppliedFlags, Get, WellFormed;
    var fetched := input.fetched.value;
    var q := RequestOf(cfg, input, fetched.sha256);
    PageItems(cfg.lib, fetched.payload, q, cursor);
    var items := ItemsOf(cfg.lib, fetched.payload, q, cursor).value;
    forall k | 0 <= k < |items| ensures items[k].position == cursor + k { Positioned(items[k], q, cursor + k); }
    if items != [] {
      AppliedBound(cfg, input.admin, version, |items|);
      var writes := CycleOf(cfg, cursor, version, input).writes;
      assert LastBatch(writes[..3]) == Some(items);
    }
  }

  /** What a cycle hands to the ledger: a non-empty page of items, placed from the cursor on, one per
      attempt, under the version that the cycle started from. */
  lemma CycleBatches(cfg: Config, cursor: int, version: int, input: Input)
    ensures forall w :: w in CycleOf(cfg, cursor, version, input).writes && w.Batch? ==>
              && cursor >= 0 && w.version == version && w.items != []
              && (forall k :: 0 <= k < |w.items| ==> w.items[k].position == cursor + k)
              && (forall j, k :: 0 <= j < k < |w.items| ==> w.items[j].attempt != w.items[k].attempt)
  {
    hide ItemsOf, Accept, WellFormed;
    if input.fetched.Ok? {
      var fetched := input.fetched.value;
      var q := RequestOf(cfg, input, fetched.sha256);
      if ItemsOf(cfg.lib, fetched.payload, q, cursor).Ok? {
        PageItems(cfg.lib, fetched.payload, q, cursor);
        var items := ItemsOf(cfg.lib, fetched.payload, q, cursor).value;
        forall k | 0 <= k < |items| ensures items[k].position == cursor + k { Positioned(items[k], q, cursor + k); }
      }
    }
  }

  lemma Positioned(item: Item, q: Request, position: int)
    requires WellFormed(item, q, position)
    ensures item.position == position
  {}

  lemma AppliedBound(cfg: Config, admin: Admin, version: int, count: nat)
    requires Accept(cfg, admin, version, count).Ok?
    ensures Accept(cfg, admin, version, count).value.0 >= version
    ensures Accept(cfg, admin, version, count).value.1 <= count
  {
    FlagsLength(Get(admin.reply.fields, "items").items);
  }

  const ITEM_STATUSES: seq<string> := ["applied", "duplicate", "stale"]

  /** The reply speaks for this campaign and challenge, covers every item, and knows each item's fate. */
  ghost predicate Covering(cfg: Config, reply: Json, version: int, count: nat) {
    && reply.Obj?
    && Get(reply.fields, "status") == Str("batch-complete")
    && Get(reply.fields, "campaign_id") == Str(cfg.campaign) && Get(reply.fields, "challenge_id") == Str(cfg.challenge)
    && Get(reply.fields, "next_expected_version").Int? && Get(reply.fields, "next_expected_version").n >= version
    && Get(reply.fields, "items").Arr? && |Get(reply.fields, "items").items| == count
    && forall x :: x in Get(reply.fields, "items").items ==> HasFate(x)
  }

  predicate HasFate(summary: Json) {
    summary.Obj? && Get(summary.fields, "status").Str? && Get(summary.fields, "status").s in ITEM_STATUSES
  }

  predicate WasApplied(summary: Json) { summary.Obj? && Get(summary.fields, "status") == Str("applied") }

  /** Which of the summaries say `applied`. */
  function AppliedAt(summaries: seq<Json>): set<nat> {
    set i: nat | 0 <= i < |summaries| && WasApplied(summaries[i])
  }

  /** What the runner accepts: exactly the covering replies, and it counts the items that they call applied. */
  lemma AcceptedReply(cfg: Config, admin: Admin, version: int, count: nat)
    ensures Accept(cfg, admin, version, count).Ok? <==> admin.Replied? && Covering(cfg, admin.reply, version, count)
    ensures Accept(cfg, admin, version, count).Ok? ==>
              Accept(cfg, admin, version, count).value
              == (Get(admin.reply.fields, "next_expected_version").n, |AppliedAt(Get(admin.reply.fields, "items").items)|)
  {
    hide Get, HasFate, AppliedFlags, Count, AppliedAt;
    if admin.Replied? && admin.reply.Obj? && Get(admin.reply.fields, "items").Arr? {
      FlagsMean(Get(admin.reply.fields, "items").items);
    }
  }

  lemma {:induction false} FlagsMean(summaries: seq<Json>)
    ensures AppliedFlags(summaries).Ok? <==> forall x :: x in summaries ==> HasFate(x)
    ensures AppliedFlags(summaries).Ok? ==> Count(AppliedFlags(summaries).value) == |AppliedAt(summaries)|
  {
    hide Get;
    if summaries == [] {
      assert AppliedAt(summaries) == {};
    } else {
      var front, last := summaries[..|summaries| - 1], summaries[|summaries| - 1];
      FlagsMean(front);
      assert summaries == front + [last];
      assert last in summaries && forall x :: x in summaries <==> x in front || x == last;
      assert AppliedFlags(summaries).Ok? <==> AppliedFlags(front).Ok? && HasFate(last);
      assert AppliedAt(summaries) == AppliedAt(front) + if WasApplied(last) then {|front|} else {};
    }
  }

  lemma {:induction false} FlagsLength(summaries: seq<Json>)
    requires AppliedFlags(summaries).Ok?
    ensures |AppliedFlags(summaries).value| == |summaries|
  {
    if summaries != [] { FlagsLength(summaries[..|summaries| - 1]); }
  }

  /** A cycle writes neither the state file nor a wake. */
  lemma CycleWrites(cfg: Config, cursor: int, version: int, input: Input)
    ensures forall w :: w in CycleOf(cfg, cursor, version, input).writes ==> !w.SaveState? && !w.ChiefWake?
  {
    hide ItemsOf, Accept;
  }
}
