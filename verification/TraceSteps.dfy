/** The steps of an execution trace, as the builder emits them. */
module TraceSteps {
  import opened Text

  datatype Kind = Thought | Call | Result | Artifact | Decision

  /** `at` is the timestamp in whole seconds. Fields a kind does not have are empty. */
  datatype Step = Step(order: nat, id: string, kind: Kind, callId: string, command: string, path: string,
                       body: string, at: int, cost: real)

  /** `{:02d}` */
  function TwoDigits(n: nat): string { if n < 10 then "0" + Decimal(n) else Decimal(n) }

  lemma {:induction false} LeadingDigit(n: nat)
    requires n >= 10
    ensures |Decimal(n)| >= 2 && Decimal(n)[0] != '0'
  {
    if n < 100 {
      assert Decimal(n)[0] == ('0' as int + n / 10) as char;
    } else {
      LeadingDigit(n / 10);
      assert Decimal(n)[0] == Decimal(n / 10)[0];
    }
  }

  lemma TwoDigitsInjective(n: nat, m: nat)
    requires TwoDigits(n) == TwoDigits(m)
    ensures n == m
  {
    if n >= 10 { LeadingDigit(n); }
    if m >= 10 { LeadingDigit(m); }
    if n < 10 && m < 10 {
      assert TwoDigits(n)[1..] == Decimal(n) && TwoDigits(m)[1..] == Decimal(m);
    }
    DecimalInjective(n, m);
  }

  function StepId(k: nat): string { "s" + TwoDigits(k) }

  function CallId(k: nat): string { "tc" + TwoDigits(k) }

  lemma CallIdInjective(n: nat, m: nat)
    requires CallId(n) == CallId(m)
    ensures n == m
  {
    assert CallId(n)[2..] == TwoDigits(n) && CallId(m)[2..] == TwoDigits(m);
    TwoDigitsInjective(n, m);
  }

  /** Steps are numbered and timed without gaps. */
  predicate Numbered(steps: seq<Step>, now: int) {
    forall i :: 0 <= i < |steps| ==>
      steps[i].order == i + 1 && steps[i].id == StepId(i + 1) && steps[i].at == now + i
  }

  /** Every result comes directly after its call, and every call directly before its result. */
  predicate Paired(steps: seq<Step>) {
    && (forall i :: 0 <= i < |steps| && steps[i].kind.Result? ==>
          i > 0 && steps[i - 1].kind.Call? && steps[i - 1].callId == steps[i].callId)
    && (forall i :: 0 <= i < |steps| && steps[i].kind.Call? ==>
          i + 1 < |steps| && steps[i + 1].kind.Result?)
  }

  /** No two calls share an id, and none is empty. */
  predicate DistinctCalls(steps: seq<Step>) {
    && (forall i :: 0 <= i < |steps| && steps[i].kind.Call? ==> steps[i].callId != "")
    && (forall i, j :: 0 <= i < j < |steps| && steps[i].kind.Call? && steps[j].kind.Call? ==>
          steps[i].callId != steps[j].callId)
  }

  function Count(steps: seq<Step>, kind: Kind): nat {
    if steps == [] then 0
    else Count(steps[..|steps| - 1], kind) + if steps[|steps| - 1].kind == kind then 1 else 0
  }

  lemma {:induction false} CountConcat(a: seq<Step>, b: seq<Step>, kind: Kind)
    ensures Count(a + b, kind) == Count(a, kind) + Count(b, kind)
  {
    if b == [] {
      assert a + b == a;
    } else {
      assert (a + b)[..|a + b| - 1] == a + b[..|b| - 1];
      CountConcat(a, b[..|b| - 1], kind);
    }
  }

  lemma CountOne(s: Step, kind: Kind)
    ensures Count([s], kind) == if s.kind == kind then 1 else 0
  {
    assert [s][..0] == [];
  }

  function Cost(steps: seq<Step>): real {
    if steps == [] then 0.0 else Cost(steps[..|steps| - 1]) + steps[|steps| - 1].cost
  }

  predicate StandsAt(hay: string, k: nat, needle: string) {
    k <= |hay| - |needle| && hay[k..k + |needle|] == needle
  }

  /** `needle in hay` */
  predicate Contains(hay: string, needle: string) {
    exists k :: 0 <= k <= |hay| && StandsAt(hay, k, needle)
  }

  lemma SliceContained(hay: string, lo: nat, hi: nat)
    requires lo <= hi <= |hay|
    ensures Contains(hay, hay[lo..hi])
  {
    assert StandsAt(hay, lo, hay[lo..hi]);
  }

  lemma ContainsTransitive(hay: string, mid: string, needle: string)
    requires Contains(hay, mid) && Contains(mid, needle)
    ensures Contains(hay, needle)
  {
    var k :| 0 <= k <= |hay| && StandsAt(hay, k, mid);
    var j :| 0 <= j <= |mid| && StandsAt(mid, j, needle);
    forall i | 0 <= i < |needle| ensures hay[k + j + i] == needle[i] {
      assert mid[j + i] == hay[k..k + |mid|][j + i];
      assert needle[i] == mid[j..j + |needle|][i];
    }
    assert hay[k + j..k + j + |needle|] == needle;
    assert StandsAt(hay, k + j, needle);
  }

  /** Stripping leaves a piece of the text. */
  lemma StripContained(t: string)
    ensures Contains(t, Strip(t))
  {
    var n := |LeadingSpace(t)|;
    assert t == LeadingSpace(t) + SkipSpace(t);
    assert SkipSpace(t) == t[n..];
    var s := Strip(t);
    assert s <= SkipSpace(t);
    assert t[n..n + |s|] == SkipSpace(t)[..|s|] == s;
    assert StandsAt(t, n, s);
  }

  lemma StripEnds(t: string)
    ensures Strip(t) != "" ==> !IsSpace(Strip(t)[0])
  {
    var s := Strip(t);
    assert s <= SkipSpace(t);
    assert s != "" ==> s[0] == SkipSpace(t)[0];
  }
}
