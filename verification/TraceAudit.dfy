/** The independent checker of a trace file, and when it accepts what the builder wrote. */
module TraceAudit {
  import opened Text
  import opened TraceSteps
  import opened TraceBuilder
  import opened TraceRun
  import opened TraceProse

  datatype Verdict = NotJsonl | NoEvents | EmptyResult | Unpaired | NotMonotonic | Passed

  // --- the event checks ---

  ghost function CallIds(events: seq<Step>): (ids: set<string>)
    ensures forall x :: x in ids <==> x != "" && exists e :: e in events && e.kind.Call? && e.callId == x
  {
    set e | e in events && e.kind.Call? && e.callId != "" :: e.callId
  }

  ghost function ResultIds(events: seq<Step>): (ids: set<string>)
    ensures forall x :: x in ids <==> x != "" && exists e :: e in events && e.kind.Result? && e.callId == x
  {
    set e | e in events && e.kind.Result? && e.callId != "" :: e.callId
  }

  /** A result that is identified but says nothing. */
  predicate Silent(e: Step) { e.kind.Result? && e.callId != "" && e.body == "" }

  predicate Monotonic(events: seq<Step>) {
    forall i, j :: 0 <= i < j < |events| ==> events[i].at <= events[j].at
  }

  ghost function AuditEvents(events: seq<Step>): Verdict {
    if events == [] then NoEvents
    else if exists e :: e in events && Silent(e) then EmptyResult
    else if CallIds(events) != ResultIds(events) then Unpaired
    else if !Monotonic(events) then NotMonotonic
    else Passed
  }

  /** The event loop of `audit_trace`. */
  method AuditTrace(events: seq<Step>) returns (verdict: Verdict)
    ensures verdict == AuditEvents(events)
  {
    hide CallIds, ResultIds;
    if events == [] { return NoEvents; }
    NothingCollected();
    var calls: set<string> := {};
    var results: set<string> := {};
    var times: seq<int> := [];
    for i := 0 to |events|
      invariant forall j :: 0 <= j < i ==> !Silent(events[j])
      invariant calls == CallIds(events[..i]) && results == ResultIds(events[..i])
      invariant |times| == i && forall j :: 0 <= j < i ==> times[j] == events[j].at
    {
      var e := events[i];
      assert events[..i + 1] == events[..i] + [e];
      Collected(events[..i], e);
      if e.kind.Call? && e.callId != "" {
        calls := calls + {e.callId};
      } else if e.kind.Result? && e.callId != "" {
        if e.body == "" {
          assert Silent(e) && e in events;
          return EmptyResult;
        }
        results := results + {e.callId};
      }
      times := times + [e.at];
    }
    assert events[..|events|] == events;
    assert forall e :: e in events ==> !Silent(e);
    if calls != results { return Unpaired; }
    var sorted := IsSorted(times);
    if !sorted { return NotMonotonic; }
    return Passed;
  }

  lemma NothingCollected()
    ensures CallIds([]) == {} && ResultIds([]) == {}
  {}

  /** One event more. */
  lemma Collected(events: seq<Step>, e: Step)
    ensures CallIds(events + [e]) == CallIds(events) + if e.kind.Call? && e.callId != "" then {e.callId} else {}
    ensures ResultIds(events + [e]) == ResultIds(events) + if e.kind.Result? && e.callId != "" then {e.callId} else {}
  {}

  method IsSorted(times: seq<int>) returns (sorted: bool)
    ensures sorted <==> forall i, j :: 0 <= i < j < |times| ==> times[i] <= times[j]
  {
    for k := 0 to |times|
      invariant forall i, j :: 0 <= i < j < k ==> times[i] <= times[j]
    {
      if k > 0 && times[k - 1] > times[k] { return false; }
    }
    return true;
  }

  /** An identified call or result has its partner among the events. */
  ghost predicate HasPartner(events: seq<Step>, e: Step) {
    e.callId == "" || exists d :: d in events && d.callId == e.callId && (if e.kind.Call? then d.kind.Result? else d.kind.Call?)
  }

  /** What the audit accepts: events, no identified result without a text, a result for every identified call and
      a call for every identified result, and times that never fall from one event to the next. */
  lemma PassedMeans(events: seq<Step>)
    ensures AuditEvents(events) == Passed
       <==> && events != []
            && (forall e :: e in events && e.kind.Result? ==> e.callId == "" || e.body != "")
            && (forall e :: e in events && (e.kind.Call? || e.kind.Result?) ==> HasPartner(events, e))
            && (forall i :: 0 < i < |events| ==> events[i - 1].at <= events[i].at)
  {
    hide CallIds, ResultIds, HasPartner;
    if forall i :: 0 < i < |events| ==> events[i - 1].at <= events[i].at { Rising(events, |events|); }
    Partners(events);
  }

  lemma Partners(events: seq<Step>)
    ensures (forall e :: e in events && (e.kind.Call? || e.kind.Result?) ==> HasPartner(events, e))
       <==> CallIds(events) == ResultIds(events)
  {
    if forall e :: e in events && (e.kind.Call? || e.kind.Result?) ==> HasPartner(events, e) {
      forall x ensures x in CallIds(events) <==> x in ResultIds(events) { PartnerId(events, x); }
    }
    if CallIds(events) == ResultIds(events) {
      forall e | e in events && (e.kind.Call? || e.kind.Result?) ensures HasPartner(events, e) {
        IdPartner(events, e);
      }
    }
  }

  lemma PartnerId(events: seq<Step>, x: string)
    requires forall e :: e in events && (e.kind.Call? || e.kind.Result?) ==> HasPartner(events, e)
    ensures x in CallIds(events) <==> x in ResultIds(events)
  {
    if x in CallIds(events) {
      var e :| e in events && e.kind.Call? && e.callId == x;
      assert HasPartner(events, e);
    }
    if x in ResultIds(events) {
      var e :| e in events && e.kind.Result? && e.callId == x;
      assert HasPartner(events, e);
    }
  }

  lemma IdPartner(events: seq<Step>, e: Step)
    requires CallIds(events) == ResultIds(events) && e in events && (e.kind.Call? || e.kind.Result?)
    ensures HasPartner(events, e)
  {
    if e.callId != "" { assert e.callId in CallIds(events) && e.callId in ResultIds(events); }
  }

  lemma {:induction false} Rising(events: seq<Step>, n: nat)
    requires n <= |events| && forall i :: 0 < i < |events| ==> events[i - 1].at <= events[i].at
    ensures forall i, j :: 0 <= i < j < n ==> events[i].at <= events[j].at
  {
    if n > 1 {
      Rising(events, n - 1);
      assert events[n - 2].at <= events[n - 1].at;
    }
  }

  /** Every trace the builder makes passes the event checks. */
  lemma TraceEventsPass(job: Job)
    requires job.commands != [] && Strip(job.log) != ""
    ensures AuditEvents(Trace(job)) == Passed
  {
    hide Trace, Numbered, DistinctCalls, Strip;
    var t := Trace(job);
    TraceShape(job);
    TraceBodies(job);
    NumberedMonotonic(t, job.now);
    forall x ensures x in CallIds(t) <==> x in ResultIds(t) {
      if x in CallIds(t) {
        var i :| 0 <= i < |t| && t[i].kind.Call? && t[i].callId == x;
        assert t[i + 1].callId == x;
      }
      if x in ResultIds(t) {
        var i :| 0 <= i < |t| && t[i].kind.Result? && t[i].callId == x;
        assert t[i - 1].callId == x;
      }
    }
  }

  lemma NumberedMonotonic(steps: seq<Step>, now: int)
    requires Numbered(steps, now)
    ensures Monotonic(steps)
  {}

  /** No result of a trace is empty, and the trace is not. */
  lemma TraceBodies(job: Job)
    requires job.commands != [] && Strip(job.log) != ""
    ensures Trace(job) != [] && forall s :: s in Trace(job) && s.kind.Result? ==> s.body != ""
  {
    hide Strip, Narrative, StepId, CallId, Rounds, WithAnchor;
    AnchoredBodies(job);
    var a := WithAnchor(job);
    assert forall s :: s in Trace(job) ==> s in a || !s.kind.Result?;
  }

  // --- the file ---

  /** Where `str.splitlines` breaks a line. */
  predicate IsBreak(c: char) {
    var n := c as int;
    10 <= n <= 13 || 28 <= n <= 30 || IsSeparator(c)
  }

  /** The line breaks that JSON text with `ensure_ascii=False` leaves as they are. */
  predicate IsSeparator(c: char) {
    var n := c as int;
    n == 0x85 || n == 0x2028 || n == 0x2029
  }

  function BreakAt(t: string): (k: nat)
    ensures k <= |t|
    ensures k < |t| ==> IsBreak(t[k])
    ensures forall i :: 0 <= i < k ==> !IsBreak(t[i])
  {
    if t == "" || IsBreak(t[0]) then 0 else 1 + BreakAt(t[1..])
  }

  /** `str.splitlines` on a text without carriage returns. */
  function SplitLines(t: string): seq<string>
    decreases |t|
  {
    if t == "" then []
    else
      var k := BreakAt(t);
      [t[..k]] + if k < |t| then SplitLines(t[k + 1..]) else []
  }

  /** `json.dumps(…, ensure_ascii=False)` of a step and `json.loads` of a line. */
  datatype Codec = Codec(dump: Step -> string, load: string -> Option<Step>)

  /** The text of a step may show this character. */
  predicate Shows(s: Step, c: char) { c in s.callId || c in s.command || c in s.path || c in s.body }

  /** What is used of JSON, for the steps of a file: the dump is an object, loads back, contains no
      line break but the three separators, those exactly if one of the strings does, and no part of
      it is a JSON text. */
  ghost predicate AllDumpOk(codec: Codec, steps: seq<Step>) {
    forall s :: s in steps ==> DumpOk(codec, s)
  }

  ghost predicate DumpOk(codec: Codec, s: Step) {
    var d := codec.dump(s);
    && d != "" && d[0] == '{' && codec.load(d) == Some(s)
    && (forall n :: 0 < n < |d| ==> codec.load(d[..n]).None?)
    && (forall c :: c in d && IsBreak(c) ==> IsSeparator(c))
    && (forall c :: IsSeparator(c) ==> (c in d <==> Shows(s, c)))
  }

  predicate Separated(s: Step) {
    Shows(s, 0x85 as char) || Shows(s, 0x2028 as char) || Shows(s, 0x2029 as char)
  }

  /** The file the builder writes. */
  function FileText(codec: Codec, steps: seq<Step>): string {
    if steps == [] then "" else codec.dump(steps[0]) + "\n" + FileText(codec, steps[1..])
  }

  /** Loading the lines that are not blank. */
  function LoadLines(codec: Codec, lines: seq<string>): Option<seq<Step>> {
    if lines == [] then Some([])
    else
      var rest := LoadLines(codec, lines[1..]);
      if Blank(lines[0]) then rest
      else
        match codec.load(lines[0])
        case None => None
        case Some(s) => if rest.None? then None else Some([s] + rest.value)
  }

  /** `audit_trace` on the text of a file. */
  ghost function AuditFile(codec: Codec, text: string): Verdict {
    match LoadLines(codec, SplitLines(text))
    case None => NotJsonl
    case Some(events) => AuditEvents(events)
  }

  lemma {:induction false} BreakUnique(d: string, c: char, rest: string)
    requires (forall i :: 0 <= i < |d| ==> !IsBreak(d[i])) && IsBreak(c)
    ensures BreakAt(d + [c] + rest) == |d|
  {
    var t := d + [c] + rest;
    assert t[|d|] == c;
    assert forall i :: 0 <= i < |d| ==> t[i] == d[i];
  }

  lemma SplitFirst(d: string, c: char, rest: string)
    requires (forall i :: 0 <= i < |d| ==> !IsBreak(d[i])) && IsBreak(c)
    ensures SplitLines(d + [c] + rest) == [d] + SplitLines(rest)
  {
    var t := d + [c] + rest;
    BreakUnique(d, c, rest);
    assert t[..|d|] == d && t[|d| + 1..] == rest;
  }

  lemma DumpNotBlank(codec: Codec, s: Step, n: nat)
    requires DumpOk(codec, s) && 0 < n <= |codec.dump(s)|
    ensures !Blank(codec.dump(s)[..n])
  {
    var p := codec.dump(s)[..n];
    assert p[0] == '{';
    NotBlank(p);
  }

  lemma NotBlank(p: string)
    requires p != "" && !IsSpace(p[0])
    ensures !Blank(p)
  {
    assert SkipSpace(p) == p;
    TrimKeeps(p);
  }

  lemma {:induction false} TrimKeeps(p: string)
    requires p != "" && !IsSpace(p[0])
    ensures TrimEnd(p) != ""
  {
    if IsSpace(p[|p| - 1]) { TrimKeeps(p[..|p| - 1]); }
  }

  lemma SeparatorsAre()
    ensures forall c :: IsSeparator(c) ==> c == 0x85 as char || c == 0x2028 as char || c == 0x2029 as char
  {}

  lemma NoBreaks(codec: Codec, s: Step)
    requires DumpOk(codec, s) && !Separated(s)
    ensures var d := codec.dump(s); forall i :: 0 <= i < |d| ==> !IsBreak(d[i])
  {
    var d := codec.dump(s);
    SeparatorsAre();
    assert forall i :: 0 <= i < |d| ==> d[i] in d;
  }

  lemma LoadCons(codec: Codec, line: string, s: Step, more: seq<string>)
    requires !Blank(line) && codec.load(line) == Some(s)
    ensures LoadLines(codec, [line] + more)
         == if LoadLines(codec, more).None? then None else Some([s] + LoadLines(codec, more).value)
  {
    var lines := [line] + more;
    assert lines[0] == line && lines[1..] == more;
  }

  /** The line of a step without a separator loads as that step. */
  lemma LoadStep(codec: Codec, s: Step, rest: string)
    requires DumpOk(codec, s) && !Separated(s)
    ensures var more := LoadLines(codec, SplitLines(rest));
            LoadLines(codec, SplitLines(codec.dump(s) + "\n" + rest))
            == if more.None? then None else Some([s] + more.value)
  {
    hide Blank, IsBreak, Separated, SplitLines, LoadLines;
    var d := codec.dump(s);
    NoBreaks(codec, s);
    assert IsBreak('\n') by { NewlineBreaks(); }
    SplitFirst(d, '\n', rest);
    DumpNotBlank(codec, s, |d|);
    assert d[..|d|] == d;
    LoadCons(codec, d, s, SplitLines(rest));
  }

  lemma NewlineBreaks()
    ensures IsBreak('\n')
  {}

  /** Without a separator the lines of the file are the steps. */
  lemma {:induction false} CleanFile(codec: Codec, steps: seq<Step>)
    requires AllDumpOk(codec, steps) && forall s :: s in steps ==> !Separated(s)
    ensures LoadLines(codec, SplitLines(FileText(codec, steps))) == Some(steps)
  {
    hide DumpOk, Separated;
    if steps != [] {
      assert DumpOk(codec, steps[0]);
      LoadStep(codec, steps[0], FileText(codec, steps[1..]));
      CleanFile(codec, steps[1..]);
      assert [steps[0]] + steps[1..] == steps;
    }
  }

  /** A separator splits a step, and the first half is no JSON text. */
  lemma SplitStep(codec: Codec, s: Step, rest: string)
    requires DumpOk(codec, s) && Separated(s)
    ensures LoadLines(codec, SplitLines(codec.dump(s) + "\n" + rest)).None?
  {
    var d := codec.dump(s);
    var text := d + "\n" + rest;
    var c := if Shows(s, 0x85 as char) then 0x85 as char else if Shows(s, 0x2028 as char) then 0x2028 as char
             else 0x2029 as char;
    assert IsSeparator(c) && c in d;
    var i :| 0 <= i < |d| && d[i] == c;
    var k := BreakAt(text);
    assert text[i] == c;
    assert text[0] == d[0];
    assert text[..k] == d[..k];
    DumpNotBlank(codec, s, k);
    var lines := SplitLines(text);
    assert lines[0] == d[..k];
  }

  lemma {:induction false} SeparatedFile(codec: Codec, steps: seq<Step>)
    requires AllDumpOk(codec, steps) && exists s :: s in steps && Separated(s)
    ensures LoadLines(codec, SplitLines(FileText(codec, steps))).None?
  {
    hide DumpOk, Separated, LoadLines, SplitLines;
    assert DumpOk(codec, steps[0]);
    if Separated(steps[0]) {
      SplitStep(codec, steps[0], FileText(codec, steps[1..]));
    } else {
      assert forall x :: x in steps ==> x == steps[0] || x in steps[1..];
      LoadStep(codec, steps[0], FileText(codec, steps[1..]));
      SeparatedFile(codec, steps[1..]);
    }
  }

  // --- which jobs give a trace that the audit accepts ---

  predicate JobShows(job: Job, c: char) {
    || c in job.problem || c in job.path || c in Strip(job.log)
    || exists k :: 0 <= k < |job.commands| && c in job.commands[k]
  }

  /** What a step shows of the unusual characters is in the job. */
  lemma {:induction false} RoundsShow(job: Job, n: nat, c: char)
    requires job.commands != [] && n <= |job.commands| && c > '~'
    ensures forall s :: s in Rounds(job, n) && Shows(s, c) ==> JobShows(job, c)
  {
    hide Narrative, Strip, StepId, CallId;
    NarrativeIn(job, 0, c);
    if n > 0 {
      RoundsShow(job, n - 1, c);
      CallIdPlain(n, c);
      if n - 1 < 3 { NarrativeIn(job, n - 1, c); }
    }
  }

  lemma CallIdPlain(k: nat, c: char)
    requires c > '~'
    ensures c !in CallId(k)
  {
    var d := Decimal(k);
    assert forall i :: 0 <= i < |d| ==> IsDigit(d[i]);
  }

  lemma WindowShows(body: string, c: char)
    ensures c in Window(body) ==> c in body
  {}

  lemma TraceShowsOnly(job: Job, c: char)
    requires job.commands != [] && c > '~'
    ensures forall s :: s in Trace(job) && Shows(s, c) ==> JobShows(job, c)
  {
    hide Narrative, Strip, StepId, CallId, Rounds, LastResult, Window;
    RoundsShow(job, |job.commands|, c);
    AnchoredKinds(job);
    AnchoredBodies(job);
    WindowShows(Strip(job.log), c);
    ArtifactIn(job.path, c);
    DecisionPlain(c);
    LastResultIs(job);
    var steps := Rounds(job, |job.commands|);
    var a := WithAnchor(job);
    forall s | s in a && Shows(s, c) ensures JobShows(job, c) {
      var i :| 0 <= i < |a| && a[i] == s;
      assert steps[i] in steps;
    }
  }

  lemma {:induction false} RoundsHave(job: Job, n: nat, k: nat)
    requires job.commands != [] && k < n <= |job.commands|
    ensures exists s :: s in Rounds(job, n) && s.kind.Call? && s.command == job.commands[k]
  {
    hide Narrative, Strip, StepId, CallId;
    var before := Rounds(job, n - 1);
    if k == n - 1 {
      var call := CallStep(job, k, |before|);
      assert call in Round(job, k, |before|);
      assert call in Rounds(job, n);
    } else {
      RoundsHave(job, n - 1, k);
      var s :| s in before && s.kind.Call? && s.command == job.commands[k];
      assert s in Rounds(job, n);
    }
  }

  /** The first steps are the opening thought, the first call and its result. */
  lemma {:induction false} RoundsStart(job: Job, n: nat)
    requires job.commands != [] && 1 <= n <= |job.commands|
    ensures var r := Rounds(job, n);
            |r| >= 3 && r[0] == ThoughtStep(job, 0, 0) && r[2] == ResultStep(job, 0, 2)
  {
    hide Narrative, Strip, StepId, CallId;
    if n > 1 { RoundsStart(job, n - 1); }
  }

  /** Each unusual character of the job is shown by some step. */
  lemma TraceShowsAll(job: Job, c: char)
    requires |job.commands| >= 2 && c > '~' && JobShows(job, c)
    ensures exists s :: s in Trace(job) && Shows(s, c)
  {
    hide Narrative, Strip, StepId, CallId, Rounds, WithAnchor;
    var t := Trace(job);
    var a := WithAnchor(job);
    var n := |job.commands|;
    AnchoredKinds(job);
    RoundsStart(job, n);
    RoundsStart(job, n - 1);
    FirstResultKept(job);
    assert forall i :: 0 <= i < |a| ==> t[i] == a[i];
    if c in job.problem {
      NarrativeIn(job, 0, c);
      assert t[0] in t && Shows(t[0], c);
    } else if c in job.path {
      assert t[|a|] in t && Shows(t[|a|], c);
    } else if c in Strip(job.log) {
      assert t[2] in t && Shows(t[2], c);
    } else {
      var k :| 0 <= k < n && c in job.commands[k];
      RoundsHave(job, n, k);
      var i :| 0 <= i < |Rounds(job, n)| && Rounds(job, n)[i].kind.Call?
            && Rounds(job, n)[i].command == job.commands[k];
      assert t[i] in t && Shows(t[i], c);
    }
  }

  /** With two commands the first result keeps the whole log. */
  lemma FirstResultKept(job: Job)
    requires |job.commands| >= 2
    ensures |WithAnchor(job)| > 2 && WithAnchor(job)[2].body == Strip(job.log)
  {
    hide Narrative, Strip, StepId, CallId, Rounds;
    RoundsStart(job, |job.commands|);
    RoundsStart(job, |job.commands| - 1);
    LastResultIs(job);
  }

  /** A text of the job contains a line break that JSON does not escape. */
  predicate JobSeparated(job: Job) {
    JobShows(job, 0x85 as char) || JobShows(job, 0x2028 as char) || JobShows(job, 0x2029 as char)
  }

  /** The audit accepts what the builder wrote exactly if the job is free of the three separators.
      Otherwise it cannot even read the file. */
  lemma AuditVerdict(job: Job, banned: string -> bool, codec: Codec)
    requires OutcomeOf(job, banned).Written? && AllDumpOk(codec, Trace(job))
    ensures AuditFile(codec, FileText(codec, Trace(job))) == if JobSeparated(job) then NotJsonl else Passed
  {
    hide DumpOk, AllDumpOk, Trace, JobShows, Shows, LoadLines, SplitLines, FileText, Blank, AuditEvents, Strip;
    var t := Trace(job);
    WrittenMeans(job, banned);
    forall c: char | c > '~' ensures (exists s :: s in t && Shows(s, c)) <==> JobShows(job, c) {
      TraceShowsOnly(job, c);
      if JobShows(job, c) { TraceShowsAll(job, c); }
    }
    if JobSeparated(job) {
      SeparatedFile(codec, t);
    } else {
      CleanFile(codec, t);
      TraceEventsPass(job);
    }
  }

  // --- what is asked of JSON can be had ---

  function Marks(s: Step): string {
    (if Shows(s, 0x85 as char) then [0x85 as char] else "")
    + (if Shows(s, 0x2028 as char) then [0x2028 as char] else "")
    + (if Shows(s, 0x2029 as char) then [0x2029 as char] else "")
  }

  /** A bare object text that names a step of a numbered trace. */
  function Sample(s: Step): string { "{" + Marks(s) + "#" + Decimal(s.order) + "}" }

  function LoadSample(steps: seq<Step>, t: string): Option<Step> {
    if steps == [] then None
    else if Sample(steps[0]) == t then Some(steps[0])
    else LoadSample(steps[1..], t)
  }

  lemma {:induction false} SampleLoads(steps: seq<Step>, s: Step)
    requires s in steps && forall a, b :: a in steps && b in steps && Sample(a) == Sample(b) ==> a == b
    ensures LoadSample(steps, Sample(s)) == Some(s)
  {
    hide Sample;
    if steps[0] != s { SampleLoads(steps[1..], s); }
  }

  lemma {:induction false} LoadedIsSample(steps: seq<Step>, t: string)
    ensures LoadSample(steps, t).Some? ==> t == Sample(LoadSample(steps, t).value)
  {
    hide Sample;
    if steps != [] { LoadedIsSample(steps[1..], t); }
  }

  lemma MarksAre(s: Step)
    ensures forall i :: 0 <= i < |Marks(s)| ==> IsSeparator(Marks(s)[i])
    ensures forall c :: IsSeparator(c) ==> (c in Marks(s) <==> Shows(s, c))
  {
    hide Shows;
    SeparatorsAre();
  }

  lemma SampleChars(s: Step)
    ensures var d := Sample(s);
            && |d| >= 3 && d[0] == '{' && d[|d| - 1] == '}'
            && (forall i :: 0 <= i < |d| - 1 ==> d[i] != '}')
            && (forall c :: c in d && IsBreak(c) ==> IsSeparator(c))
            && (forall c :: IsSeparator(c) ==> (c in d <==> Shows(s, c)))
  {
    hide Shows, Marks;
    MarksAre(s);
    var m, n := Marks(s), Decimal(s.order);
    var d := Sample(s);
    assert d == "{" + m + "#" + n + "}";
    forall i | 0 <= i < |d| - 1 ensures d[i] != '}' {
      assert i == 0 || (0 < i <= |m| && d[i] == m[i - 1]) || d[i] == '#'
          || (d[i] == n[i - |m| - 2] && IsDigit(n[i - |m| - 2]));
    }
    forall c ensures c in d <==> c == '{' || c in m || c == '#' || c in n || c == '}' {}
    assert forall c :: c in n ==> IsDigit(c);
    assert forall c :: c in m ==> IsSeparator(c);
  }

  lemma SampleOrder(a: Step, b: Step)
    requires Sample(a) == Sample(b)
    ensures a.order == b.order
  {
    hide Marks, Decimal;
    MarksAre(a);
    MarksAre(b);
    SplitSample(Marks(a), Marks(b), Decimal(a.order), Decimal(b.order));
    DecimalInjective(a.order, b.order);
  }

  lemma SplitSample(m: string, n: string, x: string, y: string)
    requires '#' !in m && '#' !in n && "{" + m + "#" + x + "}" == "{" + n + "#" + y + "}"
    ensures x == y
  {
    var d := "{" + m + "#" + x + "}";
    assert d[|m| + 1] == '#' && d[|n| + 1] == '#';
    assert forall i :: 0 <= i < |m| ==> d[i + 1] == m[i];
    assert forall i :: 0 <= i < |n| ==> d[i + 1] == n[i];
    assert |m| == |n|;
    assert x == d[|m| + 2..|d| - 1] == y;
  }

  /** For every job there is a way to write and read texts with the properties that the verdict needs. */
  lemma CodecExists(job: Job)
    requires job.commands != []
    ensures exists codec :: AllDumpOk(codec, Trace(job))
  {
    hide Trace, Sample, Shows, IsBreak, IsSeparator;
    var t := Trace(job);
    TraceShape(job);
    var codec := Codec(Sample, text => LoadSample(t, text));
    forall a, b | a in t && b in t && Sample(a) == Sample(b) ensures a == b { SampleOrder(a, b); }
    forall s | s in t ensures DumpOk(codec, s) {
      var d := Sample(s);
      SampleChars(s);
      SampleLoads(t, s);
      forall n | 0 < n < |d| ensures LoadSample(t, d[..n]).None? {
        LoadedIsSample(t, d[..n]);
        if LoadSample(t, d[..n]).Some? { SampleChars(LoadSample(t, d[..n]).value); }
      }
    }
    assert AllDumpOk(codec, t);
  }

  lemma WrittenMeans(job: Job, banned: string -> bool)
    requires OutcomeOf(job, banned).Written?
    ensures |job.commands| >= 2 && Strip(job.log) != ""
  {
    hide Trace, FirstBanned;
  }
}
