/** Where the batches handed to the ledger lie, over any history: when their positions keep ascending,
    and when a batch is repeated. */
module SchedulerBatches {
  import opened Text
  import opened PlatformJson
  import opened ReconciliationItem
  import opened ReconciliationPage
  import opened ReconciliationRunner
  import opened ReconciliationScheduler
  import opened SchedulerHistory

  /** The cursor in the state file, or the one the scheduler is started with while there is none. */
  function CursorAt(log: seq<Write>, start: int): int {
    match StateAfter(log) case None => start case Some(st) => st.cursor
  }

  predicate Completes(w: Write) { w.SaveState? && w.state.lastError.None? }

  /** A batch is placed at the cursor; a completed cycle moves the cursor over its page, and over one
      position if the page is empty; a failed cycle does not move it. */
  predicate CursorOk(start: int, log: seq<Write>, w: Write) {
    match w
    case Batch(items, _) => items != [] && forall k :: 0 <= k < |items| ==> items[k].position == CursorAt(log, start) + k
    case SaveState(st, issued) =>
      && st.cursor == CursorAt(log, start) + (if Completes(w) then Max(1, |issued|) else 0)
      && (issued != [] ==> LastBatch(log) == Some(issued))
    case _ => true
  }

  ghost predicate AllCursor(start: int, log: seq<Write>, ws: seq<Write>) {
    forall k :: 0 <= k < |ws| ==> CursorOk(start, log + ws[..k], ws[k])
  }

  lemma CursorConcat(start: int, log: seq<Write>, a: seq<Write>, b: seq<Write>)
    requires AllCursor(start, log, a) && AllCursor(start, log + a, b)
    ensures AllCursor(start, log, a + b)
  {
    hide CursorOk;
    var ws := a + b;
    forall k | 0 <= k < |ws| ensures CursorOk(start, log + ws[..k], ws[k]) {
      if k < |a| {
        assert ws[..k] == a[..k];
      } else {
        assert ws[..k] == a + b[..k - |a|];
        Assoc(log, a, b[..k - |a|]);
      }
    }
  }

  lemma CursorPrefix(start: int, log: seq<Write>, ws: seq<Write>, n: nat)
    requires AllCursor(start, log, ws) && n <= |ws|
    ensures AllCursor(start, log, ws[..n])
  {
    hide CursorOk;
    forall k | 0 <= k < n ensures CursorOk(start, log + ws[..n][..k], ws[..n][k]) {
      assert ws[..n][..k] == ws[..k];
    }
  }

  lemma CursorOne(start: int, log: seq<Write>, w: Write)
    requires CursorOk(start, log, w)
    ensures AllCursor(start, log, [w])
  {
    hide CursorOk;
    assert log + [w][..0] == log;
  }

  // --- every history keeps it ---

  /** Writes that save no state leave the saved state alone. */
  lemma {:induction false} SavesNothing(log: seq<Write>, ws: seq<Write>)
    requires forall w :: w in ws ==> !w.SaveState?
    ensures StateAfter(log + ws) == StateAfter(log)
  {
    if ws == [] {
      assert log + ws == log;
    } else {
      var front, last := ws[..|ws| - 1], ws[|ws| - 1];
      assert last in ws && ws == front + [last];
      SavesNothing(log, front);
      Assoc(log, front, [last]);
      StateSnoc(log + front, last);
    }
  }

  lemma CycleCursor(start: int, log: seq<Write>, cfg: Config, st: SchedulerState, input: Input)
    requires st.cursor == CursorAt(log, start)
    ensures var ws := CycleOf(cfg, st.cursor, st.version, input).writes;
            AllCursor(start, log, ws) && CursorAt(log + ws, start) == st.cursor
  {
    hide CycleOf, StateAfter;
    var ws := CycleOf(cfg, st.cursor, st.version, input).writes;
    CycleWrites(cfg, st.cursor, st.version, input);
    CycleBatches(cfg, st.cursor, st.version, input);
    SavesNothing(log, ws);
    forall k | 0 <= k < |ws| ensures CursorOk(start, log + ws[..k], ws[k]) {
      assert ws[k] in ws && forall w :: w in ws[..k] ==> w in ws;
      SavesNothing(log, ws[..k]);
    }
  }

  lemma StepCursor(hash: Hash, start: int, log: seq<Write>, cfg: Config, st: SchedulerState, input: Input)
    requires st.cursor == CursorAt(log, start)
    ensures var step := StepOf(hash, cfg, st, input);
            && AllCursor(start, log, step.writes)
            && (step.end.None? ==> step.state.cursor == CursorAt(log + step.writes, start))
  {
    hide CycleOf, AllCursor, StateAfter, LastBatch, Objection, WakeWrites;
    var cycle := CycleOf(cfg, st.cursor, st.version, input);
    CycleCursor(start, log, cfg, st, input);
    match cycle.result
    case Err(f) =>
      var save := SaveState(FailedState(st, input.now, f), []);
      CursorOne(start, log + cycle.writes, save);
      CursorConcat(start, log, cycle.writes, [save]);
    case Ok(o) =>
      CycleOutcome(cfg, st.cursor, st.version, input);
      var wake := WakeWrites(hash, cfg, st, o.summary);
      var save := SaveState(DoneState(st, o.summary, input.now), o.items);
      WakeCursor(hash, start, log + cycle.writes, cfg, st, o.summary);
      BatchConcat(log, cycle.writes);
      CursorOne(start, log + cycle.writes + wake, save);
      CursorConcat(start, log, cycle.writes, wake);
      Assoc(log, cycle.writes, wake);
      CursorConcat(start, log, cycle.writes + wake, [save]);
      Assoc(log, cycle.writes + wake, [save]);
      StateSnoc(log + (cycle.writes + wake), save);
  }

  lemma WakeCursor(hash: Hash, start: int, log: seq<Write>, cfg: Config, st: SchedulerState, summary: Summary)
    ensures var wake := WakeWrites(hash, cfg, st, summary);
            && AllCursor(start, log, wake) && CursorAt(log + wake, start) == CursorAt(log, start)
            && LastBatch(log + wake) == LastBatch(log)
  {
    var wake := WakeWrites(hash, cfg, st, summary);
    if wake == [] { assert log + wake == log; } else { StateSnoc(log, wake[0]); }
  }

  lemma {:induction false} RunCursor(hash: Hash, start: int, log: seq<Write>, cfg: Config, st: SchedulerState,
                                     inputs: seq<Input>)
    requires st.cursor == CursorAt(log, start)
    ensures AllCursor(start, log, RunOf(hash, cfg, st, inputs).writes)
    decreases |inputs|
  {
    hide StepOf, CursorAt, CursorOk;
    if inputs != [] {
      var step := StepOf(hash, cfg, st, inputs[0]);
      StepCursor(hash, start, log, cfg, st, inputs[0]);
      if step.end.None? {
        RunCursor(hash, start, log + step.writes, cfg, step.state, inputs[1..]);
        CursorConcat(start, log, step.writes, RunOf(hash, cfg, step.state, inputs[1..]).writes);
      }
    }
  }

  /** All runs are started with this cursor; it counts as long as no state is saved. */
  predicate StartedAt(sessions: seq<Session>, start: int) {
    forall i :: 0 <= i < |sessions| ==> sessions[i].setup.cursor == start
  }

  lemma {:induction false} HistoryCursor(hash: Hash, sessions: seq<Session>, start: int)
    requires StartedAt(sessions, start)
    ensures AllCursor(start, [], History(hash, sessions))
  {
    hide Begin, RunOf, StateAfter, CursorOk;
    if sessions != [] {
      var log := History(hash, sessions[..|sessions| - 1]);
      var last := sessions[|sessions| - 1];
      HistoryCursor(hash, sessions[..|sessions| - 1], start);
      SessionCursor(hash, log, last);
      var ws := SessionWrites(hash, log, last);
      if last.cut <= |ws| { CursorPrefix(start, log, ws, last.cut); }
      assert [] + log == log;
      CursorConcat(start, [], log, Cut(ws, last.cut));
    }
  }

  lemma SessionCursor(hash: Hash, log: seq<Write>, s: Session)
    ensures AllCursor(s.setup.cursor, log, SessionWrites(hash, log, s))
  {
    hide RunOf, StateAfter, Blank, CursorOk, BoundTo;
    if Begin(s.setup, StateAfter(log), |s.inputs|, s.now).Ok? {
      var (cfg, st) := Begin(s.setup, StateAfter(log), |s.inputs|, s.now).value;
      RunCursor(hash, s.setup.cursor, log, cfg, st, s.inputs);
    }
  }

  // --- how far the cursor moves ---

  /** How many positions the cycles that were completed take up. */
  function Advance(ws: seq<Write>): nat {
    if ws == [] then 0
    else
      var last := ws[|ws| - 1];
      Advance(ws[..|ws| - 1]) + if Completes(last) then Max(1, |last.issued|) else 0
  }

  lemma {:induction false} CursorMoves(start: int, log: seq<Write>, ws: seq<Write>)
    requires AllCursor(start, log, ws)
    ensures CursorAt(log + ws, start) == CursorAt(log, start) + Advance(ws)
  {
    hide CursorAt, CursorOk, AllCursor;
    if ws == [] {
      assert log + ws == log;
    } else {
      var front, last := ws[..|ws| - 1], ws[|ws| - 1];
      CursorPrefix(start, log, ws, |front|);
      CursorMoves(start, log, front);
      assert ws == front + [last];
      LastCursor(start, log, ws);
      Assoc(log, front, [last]);
      CursorSnoc(start, log + front, last);
    }
  }

  lemma LastCursor(start: int, log: seq<Write>, ws: seq<Write>)
    requires AllCursor(start, log, ws) && ws != []
    ensures CursorOk(start, log + ws[..|ws| - 1], ws[|ws| - 1])
  {}

  lemma CursorSnoc(start: int, log: seq<Write>, w: Write)
    requires CursorOk(start, log, w)
    ensures CursorAt(log + [w], start) == CursorAt(log, start) + if Completes(w) then Max(1, |w.issued|) else 0
  {
    StateSnoc(log, w);
  }

  lemma {:induction false} AdvanceConcat(a: seq<Write>, b: seq<Write>)
    ensures Advance(a + b) == Advance(a) + Advance(b)
  {
    if b == [] {
      assert a + b == a;
    } else {
      assert (a + b)[..|a + b| - 1] == a + b[..|b| - 1];
      AdvanceConcat(a, b[..|b| - 1]);
    }
  }

  lemma {:induction false} AdvanceNeedsSave(ws: seq<Write>) returns (k: nat)
    requires Advance(ws) > 0
    ensures k < |ws| && Completes(ws[k])
  {
    if Completes(ws[|ws| - 1]) { k := |ws| - 1; } else { k := AdvanceNeedsSave(ws[..|ws| - 1]); }
  }

  lemma AdvanceOver(ws: seq<Write>, k: nat)
    requires k < |ws| && Completes(ws[k])
    ensures Advance(ws) >= Max(1, |ws[k].issued|)
  {
    assert ws == ws[..k + 1] + ws[k + 1..];
    AdvanceConcat(ws[..k + 1], ws[k + 1..]);
    assert ws[..k + 1][..k] == ws[..k];
  }

  // --- batches ---

  /** All positions of the one batch are below all of the other. */
  predicate Below(a: seq<Item>, b: seq<Item>) {
    forall k, l :: 0 <= k < |a| && 0 <= l < |b| ==> a[k].position < b[l].position
  }

  ghost predicate BatchesAscend(log: seq<Write>) {
    forall i, j :: 0 <= i < j < |log| && log[i].Batch? && log[j].Batch? ==> Below(log[i].items, log[j].items)
  }

  /** Before each later batch, the cycles completed since this one take up its positions. */
  ghost predicate PassedOver(log: seq<Write>) {
    forall i, j :: 0 <= i < j < |log| && log[i].Batch? && log[j].Batch? ==> |log[i].items| <= Advance(log[i..j])
  }

  /** Of two batches, the later one starts as far behind the earlier one as completed cycles moved the
      cursor in between. */
  lemma BatchDistance(start: int, log: seq<Write>, i: nat, j: nat)
    requires AllCursor(start, [], log) && i < j < |log| && log[i].Batch? && log[j].Batch?
    ensures log[i].items != [] && log[j].items != []
    ensures forall k :: 0 <= k < |log[i].items| ==> log[i].items[k].position == log[i].items[0].position + k
    ensures forall k :: 0 <= k < |log[j].items| ==> log[j].items[k].position == log[j].items[0].position + k
    ensures log[j].items[0].position == log[i].items[0].position + Advance(log[i..j])
  {
    hide StateAfter, LastBatch;
    assert [] + log[..i] == log[..i] && [] + log[..j] == log[..j];
    assert CursorOk(start, [] + log[..i], log[i]) && CursorOk(start, [] + log[..j], log[j]);
    MiddleCursor(start, log, i, j);
    CursorMoves(start, log[..i], log[i..j]);
    assert log[..i] + log[i..j] == log[..j];
  }

  lemma MiddleCursor(start: int, log: seq<Write>, i: nat, j: nat)
    requires AllCursor(start, [], log) && i <= j <= |log|
    ensures AllCursor(start, log[..i], log[i..j])
  {
    hide CursorOk;
    forall k | 0 <= k < j - i ensures CursorOk(start, log[..i] + log[i..j][..k], log[i..j][k]) {
      assert log[..i] + log[i..j][..k] == [] + log[..i + k];
      assert CursorOk(start, [] + log[..i + k], log[i + k]);
    }
  }

  /** Over any history of crashes, failures and restarts: no position is handed to the ledger twice, and
      they ascend, exactly if the cycles completed between two batches take up the earlier one. */
  lemma BatchesAscendExactly(hash: Hash, sessions: seq<Session>, start: int)
    requires StartedAt(sessions, start)
    ensures BatchesAscend(History(hash, sessions)) <==> PassedOver(History(hash, sessions))
  {
    hide History, AllCursor, Advance;
    var log := History(hash, sessions);
    HistoryCursor(hash, sessions, start);
    forall i, j | 0 <= i < j < |log| && log[i].Batch? && log[j].Batch?
      ensures Below(log[i].items, log[j].items) <==> |log[i].items| <= Advance(log[i..j])
    {
      BatchDistance(start, log, i, j);
      var a, b := log[i].items, log[j].items;
      if |a| > Advance(log[i..j]) { assert a[|a| - 1].position >= b[0].position; }
    }
  }

  // --- histories without empty pages ---

  predicate NoEmptyPage(log: seq<Write>) { forall k :: 0 <= k < |log| && Completes(log[k]) ==> log[k].issued != [] }

  /** `j` is the next batch after `i`. */
  predicate NextBatch(log: seq<Write>, i: nat, j: nat) {
    i < j < |log| && log[i].Batch? && log[j].Batch? && forall k :: i < k < j ==> !log[k].Batch?
  }

  /** The cycle that handed over batch `i` is completed before `j`. */
  predicate SavedBefore(log: seq<Write>, i: nat, j: nat)
    requires i < j < |log| && log[i].Batch?
  {
    exists k :: i < k < j && Completes(log[k]) && log[k].issued == log[i].items
  }

  lemma {:induction false} FirstNext(log: seq<Write>, i: nat, j: nat) returns (n: nat)
    requires i < j < |log| && log[i].Batch? && log[j].Batch?
    ensures NextBatch(log, i, n) && n <= j
    decreases j - i
  {
    if k :| i < k < j && log[k].Batch? { n := FirstNext(log, i, k); } else { n := j; }
  }

  lemma {:induction false} LastBatchIs(log: seq<Write>, i: nat, k: nat)
    requires i < k <= |log| && log[i].Batch? && forall m :: i < m < k ==> !log[m].Batch?
    ensures LastBatch(log[..k]) == Some(log[i].items)
    decreases k - i
  {
    assert log[..k] == log[..k - 1] + [log[k - 1]];
    StateSnoc(log[..k - 1], log[k - 1]);
    if k > i + 1 { LastBatchIs(log, i, k - 1); }
  }

  lemma SavedIsPassed(log: seq<Write>, i: nat, n: nat, j: nat)
    requires i < n <= j < |log| && log[i].Batch? && SavedBefore(log, i, n)
    ensures |log[i].items| <= Advance(log[i..j])
  {
    var k :| i < k < n && Completes(log[k]) && log[k].issued == log[i].items;
    assert log[i..j][k - i] == log[k];
    AdvanceOver(log[i..j], k - i);
  }

  lemma PassedIsSaved(start: int, log: seq<Write>, i: nat, j: nat)
    requires AllCursor(start, [], log) && NoEmptyPage(log) && NextBatch(log, i, j) && Advance(log[i..j]) > 0
    ensures SavedBefore(log, i, j)
  {
    hide Advance, LastBatch, StateAfter;
    var m := AdvanceNeedsSave(log[i..j]);
    var k := i + m;
    assert log[i..j][m] == log[k];
    assert [] + log[..k] == log[..k] && CursorOk(start, [] + log[..k], log[k]);
    LastBatchIs(log, i, k);
  }

  /** While no page is empty, the positions ascend exactly if each batch with a later one is followed by
      the save that completes its cycle before the next batch. */
  lemma AscendIffSaved(hash: Hash, sessions: seq<Session>, start: int)
    requires StartedAt(sessions, start) && NoEmptyPage(History(hash, sessions))
    ensures var log := History(hash, sessions);
            BatchesAscend(log) <==> forall i, j :: NextBatch(log, i, j) ==> SavedBefore(log, i, j)
  {
    hide History, AllCursor, Advance, BatchesAscend;
    var log := History(hash, sessions);
    HistoryCursor(hash, sessions, start);
    BatchesAscendExactly(hash, sessions, start);
    if PassedOver(log) {
      forall i: nat, j: nat | NextBatch(log, i, j) ensures SavedBefore(log, i, j) {
        BatchDistance(start, log, i, j);
        PassedIsSaved(start, log, i, j);
      }
    }
    if forall i, j :: NextBatch(log, i, j) ==> SavedBefore(log, i, j) {
      forall i, j | 0 <= i < j < |log| && log[i].Batch? && log[j].Batch?
        ensures |log[i].items| <= Advance(log[i..j])
      {
        var n := FirstNext(log, i, j);
        SavedIsPassed(log, i, n, j);
      }
    }
  }
}
