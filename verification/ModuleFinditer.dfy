/** The blocks of a text as the block expression finds them, and the entries that the script reads from them. */
module ModuleFinditer {
  import opened Text
  import opened LineSearch
  import opened ModuleFields
  import opened ModuleEdits
  import opened ModuleBlocks
  import opened ModuleScan
  import opened ModuleMatches
  import opened ModuleBazel

  // --- `^http_file\(\n.*?^\)\n?` ---

  predicate ParenAt(t: string, c: nat) { c < |t| && t[c] == ')' && LineStart(t, c) }

  /** The first closing parenthesis at a line start behind a head line. */
  ghost predicate ClosesAt(t: string, p: nat, c: nat) {
    p + 11 <= c && ParenAt(t, c) && forall d: nat :: p + 11 <= d < c ==> !ParenAt(t, d)
  }

  /** Where a match ends: behind the parenthesis, and behind its line break if there is one. */
  function EndAt(t: string, c: nat): nat { if c + 1 < |t| && t[c + 1] == '\n' then c + 2 else c + 1 }

  /** A match from `p` to `q`: a head line, up to the first closing parenthesis at a line start. */
  ghost predicate BlockAt(t: string, p: nat, q: nat) {
    && LineStart(t, p) && p + 11 <= |t| && t[p..p + 11] == "http_file(\n"
    && exists c: nat :: ClosesAt(t, p, c) && q == EndAt(t, c)
  }

  /** No match starts between two positions. */
  ghost predicate NoBlockIn(t: string, from: nat, to: nat) {
    forall p: nat, q: nat :: from <= p < to ==> !BlockAt(t, p, q)
  }

  /** The matches from a position on: each is the leftmost one behind the one before it. */
  ghost predicate Finditer(t: string, from: nat, spans: seq<(nat, nat)>)
    decreases |spans|
  {
    if spans == [] then NoBlockIn(t, from, |t|)
    else
      var (p, q) := spans[0];
      from <= p && NoBlockIn(t, from, p) && BlockAt(t, p, q) && Finditer(t, q, spans[1..])
  }

  /** Where the blocks of the segments stand. */
  function Spans(segs: seq<Segment>, base: nat): seq<(nat, nat)> {
    if segs == [] then []
    else
      var next := base + |segs[0].text|;
      (if segs[0].Block? then [(base, next)] else []) + Spans(segs[1..], next)
  }

  /** `Close` is the first closing parenthesis at a line start. */
  lemma {:induction false} CloseMeans(t: string)
    ensures Close(t).None? ==> forall c: nat :: !ParenAt(t, c)
    ensures Close(t).Some? ==>
              var c := |t| - |Close(t).value|;
              c >= 0 && ParenAt(t, c) && Close(t).value == t[c..] && forall d: nat :: d < c ==> !ParenAt(t, d)
    decreases |t|
  {
    hide ParenAt, FirstLine, NextLine;
    if t == "" || t[0] == ')' {
      CloseNow(t);
    } else {
      var l, r := FirstLine(t), NextLine(t);
      assert t == l + r;
      CloseMeans(r);
      forall c: nat | ParenAt(t, c) ensures c >= |l| && ParenAt(r, c - |l|) { ParenBehind(t, c); }
      if Close(r).Some? {
        var c := |r| - |Close(r).value|;
        ParenAhead(t, c);
        assert t[|l| + c..] == r[c..];
      }
    }
  }

  lemma CloseNow(t: string)
    requires t == "" || t[0] == ')'
    ensures t == "" ==> Close(t).None? && forall c: nat :: !ParenAt(t, c)
    ensures t != "" ==> Close(t) == Some(t) && ParenAt(t, 0) && t[0..] == t
  {}

  lemma ParenBehind(t: string, c: nat)
    requires t != "" && t[0] != ')' && ParenAt(t, c)
    ensures c >= |FirstLine(t)| && ParenAt(NextLine(t), c - |FirstLine(t)|)
  {
    hide FirstLine, NextLine;
    var l, r := FirstLine(t), NextLine(t);
    assert t == l + r;
    FirstLineWhole(t, c);
    assert t[c] == r[c - |l|];
    assert c > |l| ==> t[c - 1] == r[c - |l| - 1];
  }

  lemma ParenAhead(t: string, c: nat)
    requires ParenAt(NextLine(t), c)
    ensures ParenAt(t, |FirstLine(t)| + c)
  {
    var l, r := FirstLine(t), NextLine(t);
    assert t == l + r;
    LineBreakLast(t);
    assert t[|l| + c] == r[c];
    assert t[|l| + c - 1] == if c > 0 then r[c - 1] else l[|l| - 1];
  }

  // --- the scan ---

  lemma ParenShift(t: string, n: nat, d: nat)
    requires 0 < n <= |t| && t[n - 1] == '\n'
    ensures ParenAt(t[n..], d) <==> ParenAt(t, n + d)
  {
    assert n + d < |t| ==> t[n..][d] == t[n + d];
    assert 0 < d && n + d < |t| ==> t[n..][d - 1] == t[n + d - 1];
  }

  /** What closes behind a head line. */
  lemma HeadCloses(t: string, p: nat)
    requires p + 11 <= |t| && t[p + 10] == '\n'
    ensures var r := Close(t[p + 11..]);
            && (r.None? ==> forall c: nat :: !ClosesAt(t, p, c))
            && (r.Some? ==>
                  var c := |t| - |r.value|;
                  c >= p + 11 && ClosesAt(t, p, c) && r.value == t[c..] && r.value != "")
  {
    hide Close, ParenAt;
    var x := t[p + 11..];
    CloseMeans(x);
    forall d: nat ensures ParenAt(x, d) <==> ParenAt(t, p + 11 + d) { ParenShift(t, p + 11, d); }
    if Close(x).Some? {
      var c := |x| - |Close(x).value|;
      assert ParenAt(t, p + 11 + c);
      forall d: nat | p + 11 <= d < p + 11 + c ensures !ParenAt(t, d) { assert !ParenAt(x, d - p - 11); }
    } else {
      forall c: nat ensures !ClosesAt(t, p, c) {
        if c >= p + 11 { assert ParenAt(x, c - p - 11) <==> ParenAt(t, p + 11 + (c - p - 11)); }
      }
    }
  }

  lemma HeadLine(t: string, p: nat)
    requires p <= |t| && HEAD <= t[p..]
    ensures p + 11 <= |t| && t[p..p + 11] == "http_file(\n" && t[p + 10] == '\n' && t[p..][11..] == t[p + 11..]
  {
    assert HEAD == "http_file(\n" && t[p..][..11] == t[p..p + 11];
    assert t[p + 10] == t[p..p + 11][10];
  }

  /** A head line matches exactly if something closes. */
  lemma HeadMeans(t: string, p: nat)
    requires p <= |t| && LineStart(t, p) && HEAD <= t[p..]
    ensures p + 11 <= |t|
    ensures var r := Close(t[p + 11..]);
            && (r.None? ==> forall q: nat :: !BlockAt(t, p, q))
            && (r.Some? ==> |r.value| <= |t| - p - 11
                            && BlockAt(t, p, |t| - |r.value| + if ")\n" <= r.value then 2 else 1))
  {
    hide Close, ParenAt, ClosesAt, HEAD;
    HeadLine(t, p);
    HeadCloses(t, p);
    var r := Close(t[p + 11..]);
    if r.Some? {
      var c := |t| - |r.value|;
      BreakBehind(t, c, t[p + 11..]);
      assert ClosesAt(t, p, c);
    }
  }

  lemma BreakBehind(t: string, c: nat, x: string)
    requires c < |t| && Close(x) == Some(t[c..])
    ensures EndAt(t, c) == c + if ")\n" <= t[c..] then 2 else 1
  {
    var z := t[c..];
    assert z[0] == ')';
    assert ")\n" <= z <==> |z| >= 2 && z[1] == '\n';
  }

  /** Inside a line nothing matches. */
  lemma LineGap(t: string, k: nat, l: string)
    requires k + |l| <= |t| && t[k..k + |l|] == l && forall i :: 0 <= i < |l| - 1 ==> l[i] != '\n'
    ensures NoBlockIn(t, k + 1, k + |l|)
  {
    forall p: nat, q: nat | k + 1 <= p < k + |l| ensures !BlockAt(t, p, q) {
      assert t[p - 1] == t[k..k + |l|][p - 1 - k];
    }
  }

  lemma GapBefore(t: string, from: nat, to: nat, spans: seq<(nat, nat)>)
    requires from <= to && NoBlockIn(t, from, to) && Finditer(t, to, spans)
    ensures Finditer(t, from, spans)
  {
    hide BlockAt;
  }

  lemma NoLater(t: string)
    ensures Finditer(t, |t|, [])
  {}

  lemma FirstLinePlain(t: string)
    ensures forall i :: 0 <= i < |FirstLine(t)| - 1 ==> FirstLine(t)[i] != '\n'
  {
    var l := FirstLine(t);
    assert t == l + NextLine(t);
    if '\n' in t {
      assert forall i :: 0 <= i < |l| - 1 ==> l[i] == l[..|l| - 1][i];
    } else {
      assert forall i :: 0 <= i < |l| ==> l[i] == t[i];
    }
  }

  predicate AtLine(t: string, k: nat) { k == |t| || LineStart(t, k) }

  lemma {:induction false} ScanFrom(t: string, k: nat)
    requires k <= |t| && AtLine(t, k)
    ensures Finditer(t, k, Spans(Scan(t[k..]), k))
    decreases |t| - k
  {
    hide BlockAt, NoBlockIn, Finditer, AtLine, StartOf, Spans;
    var s := t[k..];
    RestShorter(s);
    match StartOf(s)
    case Over =>
      NoLater(t);
      NoSpans(k);
      OverIs(s);
    case Line(l, rest) =>
      LineSpan(t, k, l, rest);
      ScanFrom(t, k + |l|);
      PlainSpans(l, Scan(rest), k);
      GapBefore(t, k, k + |l|, Spans(Scan(rest), k + |l|));
    case Closed(b, rest) =>
      ClosedSpan(t, k, b, rest);
      ScanFrom(t, k + |b|);
      BlockSpans(b, Scan(rest), k);
      OneMore(t, k, k + |b|, Spans(Scan(rest), k + |b|));
    case Mid(b, l, rest) =>
      MidSpan(t, k, b, l, rest);
      var n := k + |b| + |l|;
      ScanFrom(t, n);
      PlainSpans(l, Scan(rest), k + |b|);
      BlockSpans(b, [Plain(l)] + Scan(rest), k);
      GapBefore(t, k + |b|, n, Spans(Scan(rest), n));
      OneMore(t, k, k + |b|, Spans(Scan(rest), n));
      assert [Block(b), Plain(l)] + Scan(rest) == [Block(b)] + ([Plain(l)] + Scan(rest));
  }

  lemma OverIs(s: string)
    requires StartOf(s).Over?
    ensures s == ""
  {}

  lemma NoSpans(base: nat)
    ensures Spans([], base) == []
  {}

  lemma PlainSpans(l: string, segs: seq<Segment>, base: nat)
    ensures Spans([Plain(l)] + segs, base) == Spans(segs, base + |l|)
  {
    assert ([Plain(l)] + segs)[1..] == segs;
    assert [] + Spans(segs, base + |l|) == Spans(segs, base + |l|);
  }

  lemma BlockSpans(b: string, segs: seq<Segment>, base: nat)
    ensures Spans([Block(b)] + segs, base) == [(base, base + |b|)] + Spans(segs, base + |b|)
  {
    assert ([Block(b)] + segs)[1..] == segs;
  }

  lemma OneMore(t: string, k: nat, q: nat, spans: seq<(nat, nat)>)
    requires BlockAt(t, k, q) && Finditer(t, q, spans)
    ensures Finditer(t, k, [(k, q)] + spans)
  {
    hide BlockAt;
    assert ([(k, q)] + spans)[1..] == spans;
  }

  lemma LineSpan(t: string, k: nat, l: string, rest: string)
    requires k <= |t| && AtLine(t, k) && StartOf(t[k..]) == Line(l, rest)
    ensures k < k + |l| <= |t| && AtLine(t, k + |l|) && t[k + |l|..] == rest && NoBlockIn(t, k, k + |l|)
  {
    hide BlockAt, Close, HEAD, StartOf, FirstLine, NextLine;
    var s := t[k..];
    LineIs(s);
    assert s == l + rest;
    assert t[k..k + |l|] == l;
    FirstLinePlain(s);
    LineGap(t, k, l);
    forall q: nat ensures !BlockAt(t, k, q) {
      if HEAD <= s {
        HeadLine(t, k);
        HeadMeans(t, k);
      } else {
        NoHead(t, k, q);
      }
    }
    if rest != "" { assert t[k + |l| - 1] == l[|l| - 1]; }
  }

  lemma LineIs(s: string)
    requires StartOf(s).Line?
    ensures StartOf(s).l == FirstLine(s) && StartOf(s).rest == NextLine(s) && s == FirstLine(s) + NextLine(s)
    ensures FirstLine(s) != "" && (HEAD <= s ==> |s| >= 11 && Close(s[11..]).None?)
    ensures NextLine(s) != "" ==> FirstLine(s)[|FirstLine(s)| - 1] == '\n'
  {
    hide Close, HEAD, BeforeClose;
    HeadSize();
    if NextLine(s) != "" { LineEnding(s); }
  }

  lemma HeadSize()
    ensures |HEAD| == 11
  {}

  lemma NoHead(t: string, p: nat, q: nat)
    requires p <= |t| && !(HEAD <= t[p..])
    ensures !BlockAt(t, p, q)
  {
    if p + 11 <= |t| { assert t[p..][..11] == t[p..p + 11]; }
  }

  /** How long the block is that a text starts with. */
  lemma StartSizes(s: string)
    ensures StartOf(s).Closed? || StartOf(s).Mid? ==>
              && HEAD <= s && |s| >= 11 && Close(s[11..]).Some?
              && var z := Close(s[11..]).value;
                 && |z| <= |s| - 11 && |StartOf(s).b| == |s| - |z| + (if ")\n" <= z then 2 else 1)
                 && (StartOf(s).Closed? ==> s == StartOf(s).b + StartOf(s).rest
                                            && StartOf(s).b[|StartOf(s).b| - 1] == (if ")\n" <= z then '\n' else ')')
                                            && (!(")\n" <= z) ==> StartOf(s).rest == ""))
                 && (StartOf(s).Mid? ==> && s == StartOf(s).b + (StartOf(s).l + StartOf(s).rest) && !(")\n" <= z)
                                         && StartOf(s).l == FirstLine(z[1..]) && StartOf(s).rest == NextLine(z[1..])
                                         && |StartOf(s).l| > 0 && StartOf(s).b[|StartOf(s).b| - 1] == ')')
  {
    StartSplits(s);
    hide Close, BeforeClose, FirstLine, NextLine, IsBlock, StartOk;
    if HEAD <= s && Close(s[11..]).Some? {
      assert |HEAD| == 11;
      BeforeCloses(s[11..]);
      StartIs(s);
    }
  }

  lemma StartIs(s: string)
    requires StartOk(StartOf(s), s)
    ensures StartOf(s).Closed? ==> s == StartOf(s).b + StartOf(s).rest
    ensures StartOf(s).Mid? ==> s == StartOf(s).b + (StartOf(s).l + StartOf(s).rest) && |StartOf(s).l| > 0
  {
    hide StartOf, IsBlock;
  }

  lemma ClosedSpan(t: string, k: nat, b: string, rest: string)
    requires k <= |t| && AtLine(t, k) && StartOf(t[k..]) == Closed(b, rest)
    ensures k < k + |b| <= |t| && AtLine(t, k + |b|) && t[k + |b|..] == rest && BlockAt(t, k, k + |b|)
  {
    hide BlockAt, Close, StartOf, HEAD;
    var s := t[k..];
    StartSizes(s);
    assert s == b + rest;
    HeadLine(t, k);
    HeadMeans(t, k);
    assert t[k + |b| - 1] == b[|b| - 1];
  }

  lemma MidSpan(t: string, k: nat, b: string, l: string, rest: string)
    requires k <= |t| && AtLine(t, k) && StartOf(t[k..]) == Mid(b, l, rest)
    ensures k < k + |b| < k + |b| + |l| <= |t| && AtLine(t, k + |b| + |l|) && t[k + |b| + |l|..] == rest
    ensures BlockAt(t, k, k + |b|) && NoBlockIn(t, k + |b|, k + |b| + |l|)
  {
    hide BlockAt, Close, StartOf, HEAD, FirstLine, NextLine;
    var s := t[k..];
    StartSizes(s);
    assert s == b + (l + rest);
    HeadLine(t, k);
    HeadMeans(t, k);
    var n := k + |b|;
    var y := Close(s[11..]).value[1..];
    FirstLinePlain(y);
    MidSlices(t, k, b, l, rest);
    LineGap(t, n, l);
    forall q: nat ensures !BlockAt(t, n, q) { NotAtLine(t, n, q); }
    if rest != "" {
      LineBreakLast(y);
      assert t[n + |l| - 1] == l[|l| - 1];
      LineEnding(y);
    }
  }

  lemma MidSlices(t: string, k: nat, b: string, l: string, rest: string)
    requires k <= |t| && t[k..] == b + (l + rest) && b != ""
    ensures var n := k + |b|;
            n + |l| <= |t| && t[n..n + |l|] == l && t[n + |l|..] == rest && t[n - 1] == b[|b| - 1]
  {
    var s := t[k..];
    var n := k + |b|;
    assert s[|b|..|b| + |l|] == l && s[|b| + |l|..] == rest && s[|b| - 1] == b[|b| - 1];
    assert t[n..n + |l|] == s[|b|..|b| + |l|] && t[n + |l|..] == s[|b| + |l|..];
  }

  lemma LineEnding(y: string)
    requires NextLine(y) != ""
    ensures FirstLine(y) != "" && FirstLine(y)[|FirstLine(y)| - 1] == '\n'
  {
    LineBreakLast(y);
  }

  lemma NotAtLine(t: string, p: nat, q: nat)
    requires 0 < p <= |t| && t[p - 1] != '\n'
    ensures !BlockAt(t, p, q)
  {}

  /** The segments of a text are its matches, leftmost first and without overlaps, and what is between them. */
  lemma ScanIsFinditer(t: string)
    ensures Join(Scan(t)) == t && Finditer(t, 0, Spans(Scan(t), 0))
  {
    JoinScan(t);
    assert t[0..] == t;
    ScanFrom(t, 0);
  }

  // --- the entries ---

  /** The version with underscores for its dots. */
  predicate Underscored(version: string, u: string) {
    && |u| == |version|
    && forall i :: 0 <= i < |u| ==> (version[i] == '.' ==> u[i] == '_') && (version[i] != '.' ==> u[i] == version[i])
  }

  lemma SlugMeans(version: string, u: string)
    ensures u == Slug(version) <==> Underscored(version, u)
  {}

  /** A version of three dot-free parts. */
  lemma SlugSpelled(a: string, b: string, c: string)
    requires '.' !in a && '.' !in b && '.' !in c
    ensures Slug(a + "." + b + "." + c) == a + "_" + b + "_" + c
  {
    SlugMeans(a + "." + b + "." + c, a + "_" + b + "_" + c);
  }

  /** The block carries a name of the version. */
  ghost predicate Chosen(block: string, version: string) {
    exists name, u :: && StringValue(block, "name") == Some(name) && Underscored(version, u)
                      && "rusty_v8_" + u + "_" <= name
  }

  lemma ChosenMeans(block: string, version: string)
    ensures Selected(block, version) <==> Chosen(block, version)
  {
    hide StringValue, Underscored;
    forall u ensures u == Slug(version) <==> Underscored(version, u) { SlugMeans(version, u); }
    if Selected(block, version) {
      var name := StringValue(block, "name").value;
      assert Underscored(version, Slug(version));
    }
  }

  /** Which blocks a version has. */
  lemma ChosenSpelled(block: string)
    requires StringValue(block, "name") == Some("rusty_v8_146_4_0_aarch64")
    ensures Selected(block, "146.4.0") && !Selected(block, "146.40") && !Selected(block, "14.6.4.0")
  {
    hide StringValue;
    SlugMeans("146.4.0", "146_4_0");
    SlugMeans("14.6.4.0", "14_6_4_0");
    SlugMeans("146.40", "146_40");
    assert "rusty_v8_" + "146_4_0" + "_" == "rusty_v8_146_4_0_";
    assert "rusty_v8_" + "14_6_4_0" + "_" == "rusty_v8_14_6_4_0_";
    assert "rusty_v8_14_6_4_0_"[11] == '_' && "rusty_v8_146_4_0_aarch64"[11] == '6';
    assert "rusty_v8_" + "146_40" + "_" == "rusty_v8_146_40_";
    assert "rusty_v8_146_40_"[14] == '0' && "rusty_v8_146_4_0_aarch64"[14] == '_';
  }

  /** The spans of the chosen blocks, in order. */
  ghost function ChosenSpans(text: string, spans: seq<(nat, nat)>, version: string): (kept: seq<(nat, nat)>)
    requires forall s :: s in spans ==> s.0 <= s.1 <= |text|
    ensures forall s :: s in kept <==> s in spans && Chosen(text[s.0..s.1], version)
  {
    if spans == [] then []
    else
      var (p, q) := spans[0];
      (if Chosen(text[p..q], version) then [(p, q)] else []) + ChosenSpans(text, spans[1..], version)
  }

  /** An entry is what its block says. */
  predicate EntryOf(text: string, span: (nat, nat), e: Entry) {
    && span.0 <= span.1 <= |text|
    && e.start == span.0 && e.end == span.1 && e.block == text[span.0..span.1]
    && StringValue(e.block, "name") == Some(e.name)
    && StringValue(e.block, "downloaded_file_path") == Some(e.path)
    && StringValue(e.block, "sha256") == e.sha256
  }

  lemma {:induction false} SpansInside(text: string, segs: seq<Segment>, base: nat)
    requires base <= |text| && text[base..] == Join(segs)
    ensures forall s :: s in Spans(segs, base) ==> s.0 <= s.1 <= |text|
  {
    if segs != [] {
      Shorten(text, segs, base);
      SpansInside(text, segs[1..], base + |segs[0].text|);
    }
  }

  lemma Shorten(text: string, segs: seq<Segment>, base: nat)
    requires base <= |text| && segs != [] && text[base..] == Join(segs)
    ensures var n := base + |segs[0].text|;
            n <= |text| && text[n..] == Join(segs[1..]) && text[base..n] == segs[0].text
  {
    var n := base + |segs[0].text|;
    assert text[base..] == segs[0].text + Join(segs[1..]);
    assert text[n..] == text[base..][|segs[0].text|..];
    assert text[base..n] == text[base..][..|segs[0].text|];
  }

  ghost predicate EntriesOf(text: string, spans: seq<(nat, nat)>, version: string, r: Result<seq<Entry>, Error>)
    requires forall s :: s in spans ==> s.0 <= s.1 <= |text|
  {
    && (r.Ok? <==> forall s :: s in spans && Chosen(text[s.0..s.1], version) ==>
                     StringValue(text[s.0..s.1], "downloaded_file_path").Some?)
    && (r.Ok? ==>
          && |r.value| == |ChosenSpans(text, spans, version)|
          && forall i :: 0 <= i < |r.value| ==> EntryOf(text, ChosenSpans(text, spans, version)[i], r.value[i]))
  }

  lemma {:induction false} EntriesFromMean(text: string, segs: seq<Segment>, base: nat, version: string)
    requires base <= |text| && text[base..] == Join(segs)
    requires forall s :: s in Spans(segs, base) ==> s.0 <= s.1 <= |text|
    ensures EntriesOf(text, Spans(segs, base), version, EntriesFrom(segs, base, Reader(version)))
  {
    hide Chosen, StringValue, Selected, EntriesOf, Spans, EntryAt;
    if segs == [] {
      NoSpans(base);
      NoEntriesOf(text, version);
    } else {
      var n := base + |segs[0].text|;
      Shorten(text, segs, base);
      SpansHead(segs, base);
      var spans := Spans(segs[1..], n);
      assert forall s :: s in spans ==> s in Spans(segs, base);
      EntriesFromMean(text, segs[1..], n, version);
      if segs[0].Block? {
        OneEntry(text, segs[0].text, base, version, spans, EntriesFrom(segs[1..], n, Reader(version)));
      }
    }
  }

  lemma SpansHead(segs: seq<Segment>, base: nat)
    requires segs != []
    ensures var n := base + |segs[0].text|;
            Spans(segs, base) == if segs[0].Plain? then Spans(segs[1..], n) else [(base, n)] + Spans(segs[1..], n)
  {
    hide Spans;
    assert segs == [segs[0]] + segs[1..];
    if segs[0].Plain? {
      PlainSpans(segs[0].text, segs[1..], base);
    } else {
      BlockSpans(segs[0].text, segs[1..], base);
    }
  }

  lemma NoEntriesOf(text: string, version: string)
    ensures EntriesOf(text, [], version, Ok([]))
  {}

  /** One block more in front. */
  function InFront(found: Found, later: Result<seq<Entry>, Error>): Result<seq<Entry>, Error> {
    match found
    case Skipped => later
    case Bad(e) => Err(e)
    case Good(entry) => ModuleBazel.Prepend([entry], later)
  }

  lemma OneEntry(text: string, block: string, base: nat, version: string, spans: seq<(nat, nat)>,
                 later: Result<seq<Entry>, Error>)
    requires base + |block| <= |text| && text[base..base + |block|] == block
    requires forall s :: s in spans ==> s.0 <= s.1 <= |text|
    requires EntriesOf(text, spans, version, later)
    ensures EntriesOf(text, [(base, base + |block|)] + spans, version, InFront(EntryAt(block, base, version), later))
  {
    hide Chosen, StringValue, EntriesOf;
    FoundMeans(text, block, base, version);
    var span := (base, base + |block|);
    match EntryAt(block, base, version)
    case Skipped => SkippedSpan(text, span, version, spans, later);
    case Bad(e) => PathlessSpan(text, span, version, spans, e);
    case Good(entry) => GoodSpan(text, span, version, spans, entry, later);
  }

  /** What is found at a block. */
  lemma FoundMeans(text: string, block: string, base: nat, version: string)
    requires base + |block| <= |text| && text[base..base + |block|] == block
    ensures var found := EntryAt(block, base, version);
            && (found.Skipped? <==> !Chosen(block, version))
            && (found.Bad? <==> Chosen(block, version) && StringValue(block, "downloaded_file_path").None?)
            && (found.Good? ==> EntryOf(text, (base, base + |block|), found.entry))
  {
    hide Chosen, StringValue, Selected;
    ChosenMeans(block, version);
    ChosenName(block, version);
  }

  lemma ChosenHead(text: string, span: (nat, nat), version: string, spans: seq<(nat, nat)>)
    requires span.0 <= span.1 <= |text| && forall s :: s in spans ==> s.0 <= s.1 <= |text|
    ensures forall s :: s in [span] + spans <==> s == span || s in spans
    ensures ChosenSpans(text, [span] + spans, version)
         == (if Chosen(text[span.0..span.1], version) then [span] else []) + ChosenSpans(text, spans, version)
  {
    hide Chosen;
    assert ([span] + spans)[1..] == spans;
  }

  lemma SkippedSpan(text: string, span: (nat, nat), version: string, spans: seq<(nat, nat)>,
                    later: Result<seq<Entry>, Error>)
    requires span.0 <= span.1 <= |text| && forall s :: s in spans ==> s.0 <= s.1 <= |text|
    requires !Chosen(text[span.0..span.1], version) && EntriesOf(text, spans, version, later)
    ensures EntriesOf(text, [span] + spans, version, later)
  {
    hide Chosen, StringValue, EntryOf, ChosenSpans;
    ChosenHead(text, span, version, spans);
    assert [] + ChosenSpans(text, spans, version) == ChosenSpans(text, spans, version);
  }

  lemma PathlessSpan(text: string, span: (nat, nat), version: string, spans: seq<(nat, nat)>, e: Error)
    requires span.0 <= span.1 <= |text| && forall s :: s in spans ==> s.0 <= s.1 <= |text|
    requires Chosen(text[span.0..span.1], version)
    requires StringValue(text[span.0..span.1], "downloaded_file_path").None?
    ensures EntriesOf(text, [span] + spans, version, Err(e))
  {
    hide Chosen, StringValue, EntryOf, ChosenSpans;
    ChosenHead(text, span, version, spans);
    assert span in [span] + spans;
  }

  lemma GoodSpan(text: string, span: (nat, nat), version: string, spans: seq<(nat, nat)>, entry: Entry,
                 later: Result<seq<Entry>, Error>)
    requires span.0 <= span.1 <= |text| && forall s :: s in spans ==> s.0 <= s.1 <= |text|
    requires Chosen(text[span.0..span.1], version) && EntryOf(text, span, entry) && EntriesOf(text, spans, version, later)
    requires StringValue(text[span.0..span.1], "downloaded_file_path").Some?
    ensures EntriesOf(text, [span] + spans, version, ModuleBazel.Prepend([entry], later))
  {
    hide Chosen, StringValue, EntryOf, ChosenSpans;
    ChosenHead(text, span, version, spans);
  }

  lemma ChosenName(block: string, version: string)
    ensures Selected(block, version) ==> StringValue(block, "name").Some?
  {
    hide StringValue;
  }

  /** The entries of a version: what the blocks with a name of the version say, in order, each with its place in the
      text; an error exactly if one of them has no path. */
  lemma EntriesMean(text: string, version: string)
    ensures forall s :: s in Spans(Scan(text), 0) ==> s.0 <= s.1 <= |text|
    ensures Finditer(text, 0, Spans(Scan(text), 0))
    ensures EntriesOf(text, Spans(Scan(text), 0), version, EntriesFrom(Scan(text), 0, Reader(version)))
  {
    hide EntriesOf, Finditer, Scan;
    ScanIsFinditer(text);
    assert text[0..] == text;
    SpansInside(text, Scan(text), 0);
    EntriesFromMean(text, Scan(text), 0, version);
  }
}
