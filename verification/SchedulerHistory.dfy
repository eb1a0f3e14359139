/** Any number of scheduler runs over one disk, each of which may stop after any of its writes. */
module SchedulerHistory {
  import opened Text
  import opened PlatformJson
  import opened ReconciliationItem
  import opened ReconciliationRunner
  import opened ReconciliationScheduler

  /** One run of the scheduler; it is killed after `cut` writes, or ends on its own before. */
  datatype Session = Session(setup: Setup, now: int, inputs: seq<Input>, cut: nat)

  function SessionWrites(hash: Hash, log: seq<Write>, s: Session): seq<Write> {
    match Begin(s.setup, StateAfter(log), |s.inputs|, s.now)
    case Err(_) => []
    case Ok((cfg, st)) => RunOf(hash, cfg, st, s.inputs).writes
  }

  function Cut(ws: seq<Write>, n: nat): seq<Write> { if n <= |ws| then ws[..n] else ws }

  /** Everything that was ever written. */
  function History(hash: Hash, sessions: seq<Session>): seq<Write> {
    if sessions == [] then []
    else
      var log := History(hash, sessions[..|sessions| - 1]);
      var last := sessions[|sessions| - 1];
      log + Cut(SessionWrites(hash, log, last), last.cut)
  }

  predicate NulFree(s: string) { NUL[0] !in s }

  /** Identifiers and digests contain no NUL. */
  predicate SaneSession(s: Session) {
    && (s.setup.context.Some? ==> NulFree(s.setup.context.value.campaign)) && NulFree(s.setup.challenge)
    && forall i :: 0 <= i < |s.inputs| ==> SaneInput(s.inputs[i])
  }

  predicate SaneInput(input: Input) { input.fetched.Ok? ==> NulFree(input.fetched.value.sha256) }

  predicate SaneConfig(cfg: Config) { NulFree(cfg.campaign) && NulFree(cfg.challenge) }

  predicate SaneWake(w: Wake) {
    NulFree(w.campaign) && NulFree(w.challenge) && NulFree(w.stream) && NulFree(w.sha256)
  }

  /** The truncated digest tells names apart. */
  ghost predicate Injective(hash: Hash) {
    forall a, b :: hash(a) == hash(b) ==> a == b
  }

  lemma {:induction false} NulSplits(a: string, s: string, b: string, t: string)
    requires NulFree(a) && NulFree(b) && a + NUL + s == b + NUL + t
    ensures a == b && s == t
  {
    var k := a + NUL + s;
    assert k[|a|] == NUL[0] && k[|b|] == NUL[0];
    assert forall i :: 0 <= i < |a| ==> k[i] == a[i];
    assert forall i :: 0 <= i < |b| ==> k[i] == b[i];
    assert |a| == |b|;
    assert a == k[..|a|] == b;
    assert s == k[|a| + 1..] == t;
  }

  lemma IntTextInjective(n: int, m: int)
    requires IntText(n) == IntText(m)
    ensures n == m
  {
    if n < 0 {
      assert IntText(n)[1..] == Decimal(-n);
      if m < 0 {
        assert IntText(m)[1..] == Decimal(-m);
        DecimalInjective(-n, -m);
      } else {
        assert Decimal(m)[0] == '-';
      }
    } else if m < 0 {
      assert Decimal(n)[0] == '-';
    } else {
      DecimalInjective(n, m);
    }
  }

  lemma IntTextPlain(n: int)
    ensures NulFree(IntText(n))
  {
    var d := Decimal(if n < 0 then -n else n);
    assert forall i :: 0 <= i < |d| ==> IsDigit(d[i]);
  }

  /** The NUL-joined material of a wake's name tells all of its parts. */
  lemma MaterialInjective(a: Wake, b: Wake)
    requires SaneWake(a) && SaneWake(b) && Material(a) == Material(b)
    ensures a.campaign == b.campaign && a.challenge == b.challenge && a.stream == b.stream
    ensures a.version == b.version && a.sha256 == b.sha256
  {
    var a3 := IntText(a.version) + NUL + a.sha256;
    var b3 := IntText(b.version) + NUL + b.sha256;
    var a2 := a.stream + NUL + a3;
    var b2 := b.stream + NUL + b3;
    var a1 := a.challenge + NUL + a2;
    var b1 := b.challenge + NUL + b2;
    MaterialNested(a);
    MaterialNested(b);
    NulSplits(a.campaign, a1, b.campaign, b1);
    NulSplits(a.challenge, a2, b.challenge, b2);
    NulSplits(a.stream, a3, b.stream, b3);
    IntTextPlain(a.version);
    IntTextPlain(b.version);
    NulSplits(IntText(a.version), a.sha256, IntText(b.version), b.sha256);
    IntTextInjective(a.version, b.version);
  }

  lemma MaterialNested(w: Wake)
    ensures Material(w) == w.campaign + NUL + (w.challenge + NUL + (w.stream + NUL + (IntText(w.version) + NUL + w.sha256)))
  {
    var v := IntText(w.version);
    Assoc(w.stream + NUL, v + NUL, w.sha256);
    Assoc(w.stream + NUL, v, NUL);
    Assoc(w.challenge + NUL, w.stream + NUL, v + NUL + w.sha256);
    Assoc(w.challenge + NUL, w.stream, NUL);
    Assoc(w.campaign + NUL, w.challenge + NUL, w.stream + NUL + (v + NUL + w.sha256));
    Assoc(w.campaign + NUL, w.challenge, NUL);
    assert Material(w) == w.campaign + NUL + (w.challenge + NUL + (w.stream + NUL + (v + NUL + w.sha256)));
  }

  // --- what is true of every write when it is made ---

  ghost predicate HasWake(log: seq<Write>, st: SchedulerState) {
    exists p :: p in WakesAfter(log) && Announces(WakesAfter(log)[p], st)
  }

  /** The wake that the state refers to. */
  predicate Announces(w: Wake, st: SchedulerState) {
    w.version == st.lastWake && w.campaign == st.campaign && w.challenge == st.challenge
  }

  /** Where the positions of the cycle that saves this state start. */
  function StartOf(st: SchedulerState, issued: seq<Item>): int { st.cursor - Max(1, |issued|) }

  predicate SameBinding(a: SchedulerState, b: SchedulerState) {
    a.challenge == b.challenge && a.route == b.route && a.campaign == b.campaign && a.contextSha256 == b.contextSha256
  }

  predicate SameCounters(a: SchedulerState, b: SchedulerState) {
    a.cursor == b.cursor && a.version == b.version && a.lastWake == b.lastWake && a.cycles == b.cycles
  }

  /** A save follows on from the previous one: a failed cycle changes no counter, a completed one
      starts where the previous one ended. */
  predicate Follows(before: Option<SchedulerState>, st: SchedulerState, issued: seq<Item>) {
    && (st.lastError.Some? ==> issued == [])
    && (st.lastError.None? ==>
          && StartOf(st, issued) >= 0
          && forall k :: 0 <= k < |issued| ==> issued[k].position == StartOf(st, issued) + k)
    && (before.None? ==> st.cycles == if st.lastError.Some? then 0 else 1)
    && (before.Some? ==>
          && SameBinding(before.value, st)
          && (st.lastError.Some? ==> SameCounters(before.value, st))
          && (st.lastError.None? ==>
                && StartOf(st, issued) == before.value.cursor
                && st.version >= before.value.version
                && st.cycles == before.value.cycles + 1))
  }

  /** A batch for the ledger starts where the saved state says, at its version, and has one item per
      attempt. */
  predicate Aligned(saved: Option<SchedulerState>, w: Write) {
    w.Batch? ==>
      && w.items != [] && w.items[0].position >= 0
      && (forall k :: 0 <= k < |w.items| ==> w.items[k].position == w.items[0].position + k)
      && (forall j, k :: 0 <= j < k < |w.items| ==> w.items[j].attempt != w.items[k].attempt)
      && (saved.Some? ==> w.items[0].position == saved.value.cursor && w.version == saved.value.version)
  }

  ghost predicate Good(hash: Hash, log: seq<Write>, w: Write) {
    match w
    case Batch(_, _) => Aligned(StateAfter(log), w)
    case SaveState(st, issued) =>
      && GoodCounters(st)
      && (issued != [] ==> LastBatch(log) == Some(issued))
      && (st.lastWake > 0 ==> HasWake(log, st))
      && Follows(StateAfter(log), st, issued)
    case ChiefWake(path, wake) => path == hash(Material(wake)) && SaneWake(wake)
    case _ => true
  }

  /** Each of these writes is good when it is made after `log` and the ones before it. */
  ghost predicate AllGood(hash: Hash, log: seq<Write>, ws: seq<Write>) {
    forall k :: 0 <= k < |ws| ==> Good(hash, log + ws[..k], ws[k])
  }

  lemma AllGoodConcat(hash: Hash, log: seq<Write>, a: seq<Write>, b: seq<Write>)
    requires AllGood(hash, log, a) && AllGood(hash, log + a, b)
    ensures AllGood(hash, log, a + b)
  {
    hide Good;
    var ws := a + b;
    forall k | 0 <= k < |ws| ensures Good(hash, log + ws[..k], ws[k]) {
      if k < |a| {
        assert ws[..k] == a[..k];
      } else {
        assert ws[..k] == a + b[..k - |a|];
        Assoc(log, a, b[..k - |a|]);
      }
    }
  }

  lemma AllGoodPrefix(hash: Hash, log: seq<Write>, ws: seq<Write>, n: nat)
    requires AllGood(hash, log, ws) && n <= |ws|
    ensures AllGood(hash, log, ws[..n])
  {
    hide Good;
    forall k | 0 <= k < n ensures Good(hash, log + ws[..n][..k], ws[..n][k]) {
      assert ws[..n][..k] == ws[..k];
    }
  }

  lemma OneGood(hash: Hash, log: seq<Write>, w: Write)
    requires Good(hash, log, w)
    ensures AllGood(hash, log, [w])
  {
    hide Good;
    assert log + [w][..0] == log;
  }

  // --- reading a log ---

  lemma StateSnoc(log: seq<Write>, w: Write)
    ensures StateAfter(log + [w]) == if w.SaveState? then Some(w.state) else StateAfter(log)
    ensures WakesAfter(log + [w]) == if w.ChiefWake? then WakesAfter(log)[w.path := w.wake] else WakesAfter(log)
    ensures LastBatch(log + [w]) == if w.Batch? then Some(w.items) else LastBatch(log)
  {
    assert (log + [w])[..|log|] == log;
  }

  lemma {:induction false} BatchConcat(a: seq<Write>, b: seq<Write>)
    ensures LastBatch(a + b) == if LastBatch(b).Some? then LastBatch(b) else LastBatch(a)
  {
    if b == [] {
      assert a + b == a;
    } else {
      var front := b[..|b| - 1];
      assert a + b == a + front + [b[|b| - 1]];
      StateSnoc(a + front, b[|b| - 1]);
      BatchConcat(a, front);
    }
  }

  /** Writes that are neither saves nor wakes leave the state file and the wakes alone. */
  lemma {:induction false} PlainWrites(hash: Hash, log: seq<Write>, ws: seq<Write>)
    requires forall w :: w in ws ==> !w.SaveState? && !w.ChiefWake? && Aligned(StateAfter(log), w)
    ensures StateAfter(log + ws) == StateAfter(log) && WakesAfter(log + ws) == WakesAfter(log)
    ensures AllGood(hash, log, ws)
  {
    if ws == [] {
      assert log + ws == log;
    } else {
      var front := ws[..|ws| - 1];
      var last := ws[|ws| - 1];
      PlainWrites(hash, log, front);
      assert ws == front + [last];
      Assoc(log, front, [last]);
      StateSnoc(log + front, last);
      OneGood(hash, log + front, last);
      AllGoodConcat(hash, log, front, [last]);
    }
  }

  /** Every wake file is named by its material. */
  ghost predicate WakesSound(hash: Hash, log: seq<Write>) {
    forall p :: p in WakesAfter(log) ==> p == hash(Material(WakesAfter(log)[p])) && SaneWake(WakesAfter(log)[p])
  }

  /** A wake file is only ever replaced by a wake of the same version. */
  lemma HasWakeSnoc(hash: Hash, log: seq<Write>, w: Write, st: SchedulerState)
    requires Injective(hash) && WakesSound(hash, log) && HasWake(log, st) && Good(hash, log, w)
    ensures HasWake(log + [w], st)
  {
    hide Material, SaneWake;
    StateSnoc(log, w);
    var wakes := WakesAfter(log);
    var p :| p in wakes && Announces(wakes[p], st);
    if w.ChiefWake? && w.path == p {
      assert Material(w.wake) == Material(wakes[p]);
      MaterialInjective(w.wake, wakes[p]);
    }
    assert p in WakesAfter(log + [w]) && Announces(WakesAfter(log + [w])[p], st);
  }

  lemma WakesSoundSnoc(hash: Hash, log: seq<Write>, w: Write)
    requires WakesSound(hash, log) && Good(hash, log, w)
    ensures WakesSound(hash, log + [w])
  {
    hide Material, SaneWake;
    StateSnoc(log, w);
  }

  lemma {:induction false} GoodLogSound(hash: Hash, log: seq<Write>)
    requires AllGood(hash, [], log)
    ensures WakesSound(hash, log)
  {
    hide Good, SaneWake, Material;
    if log != [] {
      var front := log[..|log| - 1];
      AllGoodPrefix(hash, [], log, |log| - 1);
      GoodLogSound(hash, front);
      LastGood(hash, log);
      assert log == front + [log[|log| - 1]];
      WakesSoundSnoc(hash, front, log[|log| - 1]);
    }
  }

  lemma LastGood(hash: Hash, log: seq<Write>)
    requires AllGood(hash, [], log) && log != []
    ensures Good(hash, log[..|log| - 1], log[|log| - 1])
  {
    assert [] + log[..|log| - 1] == log[..|log| - 1];
  }

  /** Whatever has been written: the saved state is acceptable, and the wake it refers to is there. */
  lemma {:induction false} GoodLogState(hash: Hash, log: seq<Write>)
    requires Injective(hash) && AllGood(hash, [], log) && StateAfter(log).Some?
    ensures GoodCounters(StateAfter(log).value)
    ensures StateAfter(log).value.lastWake > 0 ==> HasWake(log, StateAfter(log).value)
  {
    hide WakesSound, HasWake, GoodCounters, Follows, AllGood;
    var front := log[..|log| - 1];
    var last := log[|log| - 1];
    assert log == front + [last];
    AllGoodPrefix(hash, [], log, |log| - 1);
    LastGood(hash, log);
    GoodLogSound(hash, front);
    StateSnoc(front, last);
    if !last.SaveState? { GoodLogState(hash, front); }
    var st := StateAfter(log).value;
    if st.lastWake > 0 { HasWakeSnoc(hash, front, last, st); }
  }

  // --- every write of a run is good ---

  /** What holds between cycles. */
  ghost predicate Anchored(hash: Hash, log: seq<Write>, cfg: Config, st: SchedulerState) {
    && SaneConfig(cfg) && BoundTo(st, cfg) && GoodCounters(st)
    && WakesSound(hash, log)
    && (st.lastWake > 0 ==> HasWake(log, st))
    && (StateAfter(log).Some? ==> StateAfter(log).value == st)
    && (StateAfter(log).None? ==> st.cycles == 0)
  }

  lemma SameAfter(log: seq<Write>, log': seq<Write>, st: SchedulerState)
    requires WakesAfter(log') == WakesAfter(log) && HasWake(log, st)
    ensures HasWake(log', st)
  {}

  lemma AnchoredPlain(hash: Hash, log: seq<Write>, cfg: Config, st: SchedulerState, ws: seq<Write>)
    requires Anchored(hash, log, cfg, st)
    requires forall w :: w in ws ==> !w.SaveState? && !w.ChiefWake? && Aligned(StateAfter(log), w)
    ensures Anchored(hash, log + ws, cfg, st) && AllGood(hash, log, ws)
  {
    hide HasWake;
    PlainWrites(hash, log, ws);
    if st.lastWake > 0 { SameAfter(log, log + ws, st); }
  }

  lemma SaveGood(hash: Hash, log: seq<Write>, cfg: Config, st: SchedulerState, issued: seq<Item>)
    requires SaneConfig(cfg) && BoundTo(st, cfg) && WakesSound(hash, log)
    requires Good(hash, log, SaveState(st, issued))
    ensures Anchored(hash, log + [SaveState(st, issued)], cfg, st)
    ensures AllGood(hash, log, [SaveState(st, issued)])
  {
    hide HasWake, Follows;
    var w := SaveState(st, issued);
    StateSnoc(log, w);
    WakesSoundSnoc(hash, log, w);
    OneGood(hash, log, w);
    if st.lastWake > 0 { SameAfter(log, log + [w], st); }
  }

  lemma FailedGood(hash: Hash, log: seq<Write>, cfg: Config, st: SchedulerState, now: int, f: Failure)
    requires Anchored(hash, log, cfg, st)
    ensures Good(hash, log, SaveState(FailedState(st, now, f), []))
    ensures BoundTo(FailedState(st, now, f), cfg)
  {
    var st' := FailedState(st, now, f);
    if st.lastWake > 0 {
      var p :| p in WakesAfter(log) && Announces(WakesAfter(log)[p], st);
      assert Announces(WakesAfter(log)[p], st');
    }
  }

  /** The wake of a cycle, written before its state. */
  lemma WakeGood(hash: Hash, log: seq<Write>, cfg: Config, st: SchedulerState, summary: Summary)
    requires Injective(hash) && Anchored(hash, log, cfg, st) && NulFree(summary.sha256)
    ensures var ws := WakeWrites(hash, cfg, st, summary);
            && AllGood(hash, log, ws) && WakesSound(hash, log + ws)
            && StateAfter(log + ws) == StateAfter(log) && LastBatch(log + ws) == LastBatch(log)
            && (st.lastWake > 0 ==> HasWake(log + ws, st))
    ensures summary.chief ==>
              HasWake(log + WakeWrites(hash, cfg, st, summary), st.(lastWake := NextVersion(summary, st.version)))
  {
    hide Material;
    var ws := WakeWrites(hash, cfg, st, summary);
    if !summary.chief {
      assert log + ws == log;
    } else {
      var w := WakeOf(cfg, summary, NextVersion(summary, st.version));
      assert SaneWake(w);
      StateSnoc(log, ws[0]);
      WakesSoundSnoc(hash, log, ws[0]);
      OneGood(hash, log, ws[0]);
      if st.lastWake > 0 { HasWakeSnoc(hash, log, ws[0], st); }
      assert Announces(WakesAfter(log + ws)[ws[0].path], st.(lastWake := w.version));
    }
  }

  lemma SameWake(log: seq<Write>, st: SchedulerState, st': SchedulerState)
    requires HasWake(log, st) && st'.lastWake == st.lastWake && SameBinding(st, st')
    ensures HasWake(log, st')
  {
    var p :| p in WakesAfter(log) && Announces(WakesAfter(log)[p], st);
    assert Announces(WakesAfter(log)[p], st');
  }

  /** Completing a cycle. */
  lemma DoneGood(hash: Hash, log: seq<Write>, cfg: Config, st: SchedulerState, o: Outcome, now: int)
    requires Injective(hash) && Anchored(hash, log, cfg, st) && NulFree(o.summary.sha256)
    requires Objection(st, o.summary).None? && o.summary.itemCount == |o.items|
    requires forall k :: 0 <= k < |o.items| ==> o.items[k].position == st.cursor + k
    requires o.items != [] ==> LastBatch(log) == Some(o.items)
    ensures var ws := WakeWrites(hash, cfg, st, o.summary);
            && AllGood(hash, log, ws + [SaveState(DoneState(st, o.summary, now), o.items)])
            && Anchored(hash, log + ws + [SaveState(DoneState(st, o.summary, now), o.items)], cfg,
                        DoneState(st, o.summary, now))
  {
    hide HasWake, WakesSound, WakeWrites;
    var ws := WakeWrites(hash, cfg, st, o.summary);
    var st' := DoneState(st, o.summary, now);
    WakeGood(hash, log, cfg, st, o.summary);
    if o.summary.chief {
      SameWake(log + ws, st.(lastWake := NextVersion(o.summary, st.version)), st');
    } else if st.lastWake > 0 {
      SameWake(log + ws, st, st');
    }
    SaveGood(hash, log + ws, cfg, st', o.items);
    AllGoodConcat(hash, log, ws, [SaveState(st', o.items)]);
  }

  lemma CycleAligned(hash: Hash, log: seq<Write>, cfg: Config, st: SchedulerState, input: Input)
    requires Anchored(hash, log, cfg, st)
    ensures forall w :: w in CycleOf(cfg, st.cursor, st.version, input).writes ==> Aligned(StateAfter(log), w)
  {
    hide CycleOf, WakesSound, HasWake, StateAfter;
    CycleBatches(cfg, st.cursor, st.version, input);
  }

  lemma StepGood(hash: Hash, log: seq<Write>, cfg: Config, st: SchedulerState, input: Input)
    requires Injective(hash) && Anchored(hash, log, cfg, st) && SaneInput(input)
    ensures var step := StepOf(hash, cfg, st, input);
            && AllGood(hash, log, step.writes)
            && (step.end.None? ==> Anchored(hash, log + step.writes, cfg, step.state))
  {
    hide CycleOf, Anchored, AllGood, Objection, DoneState, WakeWrites, FailedState, Good;
    var cycle := CycleOf(cfg, st.cursor, st.version, input);
    CycleWrites(cfg, st.cursor, st.version, input);
    CycleAligned(hash, log, cfg, st, input);
    AnchoredPlain(hash, log, cfg, st, cycle.writes);
    match cycle.result
    case Err(f) =>
      if Handled(f) {
        FailedGood(hash, log + cycle.writes, cfg, st, input.now, f);
        AnchoredMeans(hash, log + cycle.writes, cfg, st);
        SaveGood(hash, log + cycle.writes, cfg, FailedState(st, input.now, f), []);
        AllGoodConcat(hash, log, cycle.writes, [SaveState(FailedState(st, input.now, f), [])]);
      }
    case Ok(o) =>
      if Objection(st, o.summary).None? {
        CycleOutcome(cfg, st.cursor, st.version, input);
        BatchConcat(log, cycle.writes);
        DoneGood(hash, log + cycle.writes, cfg, st, o, input.now);
        var ws := WakeWrites(hash, cfg, st, o.summary);
        var saved := [SaveState(DoneState(st, o.summary, input.now), o.items)];
        AllGoodConcat(hash, log, cycle.writes, ws + saved);
        Assoc(cycle.writes, ws, saved);
        Assoc(log, cycle.writes, ws);
        Assoc(log, cycle.writes + ws, saved);
      }
  }

  lemma AnchoredMeans(hash: Hash, log: seq<Write>, cfg: Config, st: SchedulerState)
    requires Anchored(hash, log, cfg, st)
    ensures SaneConfig(cfg) && WakesSound(hash, log)
  {}

  lemma {:induction false} RunGood(hash: Hash, log: seq<Write>, cfg: Config, st: SchedulerState, inputs: seq<Input>)
    requires Injective(hash) && Anchored(hash, log, cfg, st)
    requires forall i :: 0 <= i < |inputs| ==> SaneInput(inputs[i])
    ensures AllGood(hash, log, RunOf(hash, cfg, st, inputs).writes)
    decreases |inputs|
  {
    hide Anchored, AllGood, StepOf;
    if inputs == [] {
      NothingGood(hash, log);
    } else {
      var step := StepOf(hash, cfg, st, inputs[0]);
      StepGood(hash, log, cfg, st, inputs[0]);
      if step.end.None? {
        RunGood(hash, log + step.writes, cfg, step.state, inputs[1..]);
        AllGoodConcat(hash, log, step.writes, RunOf(hash, cfg, step.state, inputs[1..]).writes);
      }
    }
  }

  lemma NothingGood(hash: Hash, log: seq<Write>)
    ensures AllGood(hash, log, [])
  {}

  lemma BeginMeans(setup: Setup, saved: Option<SchedulerState>, cycles: nat, now: int)
    requires Begin(setup, saved, cycles, now).Ok?
    ensures var (cfg, st) := Begin(setup, saved, cycles, now).value;
            && BoundTo(st, cfg) && GoodCounters(st)
            && setup.context.Some? && cfg.campaign == setup.context.value.campaign && cfg.challenge == setup.challenge
            && (saved.Some? ==> st == saved.value)
            && (saved.None? ==> st.lastWake == 0 && st.cycles == 0)
  {
    hide Blank;
  }

  /** A run starts from an acceptable state, whatever happened before. */
  lemma BeginAnchored(hash: Hash, log: seq<Write>, s: Session)
    requires Injective(hash) && AllGood(hash, [], log) && SaneSession(s)
    requires Begin(s.setup, StateAfter(log), |s.inputs|, s.now).Ok?
    ensures var (cfg, st) := Begin(s.setup, StateAfter(log), |s.inputs|, s.now).value;
            Anchored(hash, log, cfg, st)
  {
    hide AllGood, HasWake, WakesSound, Begin, StateAfter, GoodCounters, BoundTo, NulFree;
    BeginMeans(s.setup, StateAfter(log), |s.inputs|, s.now);
    GoodLogSound(hash, log);
    if StateAfter(log).Some? { GoodLogState(hash, log); }
  }

  /** Every write ever made was good when it was made. */
  lemma {:induction false} HistoryGood(hash: Hash, sessions: seq<Session>)
    requires Injective(hash) && forall i :: 0 <= i < |sessions| ==> SaneSession(sessions[i])
    ensures AllGood(hash, [], History(hash, sessions))
  {
    hide AllGood, Begin, Anchored, RunOf, StateAfter;
    if sessions == [] {
      NothingGood(hash, []);
    } else {
      var log := History(hash, sessions[..|sessions| - 1]);
      var last := sessions[|sessions| - 1];
      HistoryGood(hash, sessions[..|sessions| - 1]);
      var ws := SessionWrites(hash, log, last);
      if Begin(last.setup, StateAfter(log), |last.inputs|, last.now).Ok? {
        var (cfg, st) := Begin(last.setup, StateAfter(log), |last.inputs|, last.now).value;
        BeginAnchored(hash, log, last);
        RunGood(hash, log, cfg, st, last.inputs);
      } else {
        NothingGood(hash, log);
      }
      if last.cut <= |ws| { AllGoodPrefix(hash, log, ws, last.cut); }
      assert [] + log == log;
      AllGoodConcat(hash, [], log, Cut(ws, last.cut));
    }
  }
}
