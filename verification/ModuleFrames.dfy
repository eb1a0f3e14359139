/** What an edit later in a block cannot change: matches that begin in complete lines before it. */
module ModuleFrames {
  import opened Text
  import opened LineSearch
  import opened ModuleFields

  /** Nothing but white space, with a line break, after the last other character. */
  ghost predicate LineEnded(x: string) {
    exists k :: 0 <= k < |x| && x[k] == '\n' && forall m :: k <= m < |x| ==> IsSpace(x[m])
  }

  /** A text that no field value opened before it can swallow: it starts with a character that is
      neither space, `=` nor a quote, and its first quote does not close a field. */
  ghost predicate Inert(s: string) {
    && s != "" && !IsSpace(s[0]) && s[0] != '=' && s[0] != '"'
    && var c := s[Unquoted(s)..];
       |c| >= 2 ==> c[1] != ',' || (|c| > 2 && !IsSpace(c[2]))
  }

  lemma LineEndedAfter(x: string, j: nat)
    requires LineEnded(x) && 0 < j <= |x| && !IsSpace(x[j - 1])
    ensures LineEnded(x[j..]) && x[j..] != ""
  {
    var k :| 0 <= k < |x| && x[k] == '\n' && forall m :: k <= m < |x| ==> IsSpace(x[m]);
    assert j <= k;
    assert x[j..][k - j] == '\n';
  }

  lemma LineEndedSkip(x: string)
    requires LineEnded(x)
    ensures SkipSpace(x) != "" ==> LineEnded(SkipSpace(x))
    ensures SkipSpace(x) == "" ==> '\n' in LeadingSpace(x)
  {
    hide IsSpace, LeadingSpace, SkipSpace;
    var u := SkipSpace(x);
    if u == "" {
      assert x == LeadingSpace(x);
    } else {
      var j := |LeadingSpace(x)|;
      assert x[j] == u[0] && u == x[j..];
      var k :| 0 <= k < |x| && x[k] == '\n' && forall m :: k <= m < |x| ==> IsSpace(x[m]);
      assert j < k;
      assert x[j..][k - j] == '\n';
    }
  }

  lemma {:induction false} LeadingSpaceConcat(x: string, s: string)
    ensures LeadingSpace(x + s) == if SkipSpace(x) == "" then x + LeadingSpace(s) else LeadingSpace(x)
  {
    if x == "" {
      assert x + s == s;
    } else if IsSpace(x[0]) {
      assert (x + s)[1..] == x[1..] + s;
      assert x == [x[0]] + x[1..];
      LeadingSpaceConcat(x[1..], s);
    }
  }

  lemma EndsLineFrame(x: string, s: string, s': string)
    requires LineEnded(x) && Inert(s) && Inert(s')
    ensures EndsLine(x + s) == EndsLine(x + s')
  {
    LineEndedSkip(x);
    SkipSpaceConcat(x, s);
    SkipSpaceConcat(x, s');
    LeadingSpaceConcat(x, s);
    LeadingSpaceConcat(x, s');
    assert x == LeadingSpace(x) + SkipSpace(x);
  }

  /** The outcome of reading from just behind the opening quote. */
  function ReadValue(t: string): Parsed {
    var n := Unquoted(t);
    var c := t[n..];
    if n == 0 || |c| < 2 || c[1] != ',' then Unread else Read(t[..n], c[2..])
  }

  ghost predicate SameReading(p: Parsed, p': Parsed, pattern: Pattern) {
    && Accepts(p, pattern) == Accepts(p', pattern)
    && (Accepts(p, pattern) ==> p.value == p'.value)
  }

  lemma DropPast(x: string, s: string, n: nat)
    requires n <= |s|
    ensures (x + s)[|x| + n..] == s[n..]
  {}

  lemma OpenValue(x: string, s: string, pattern: Pattern)
    requires Inert(s) && Unquoted(x) == |x|
    ensures !Accepts(ReadValue(x + s), pattern)
  {
    UnquotedConcat(x, s);
    DropPast(x, s, Unquoted(s));
    var c := s[Unquoted(s)..];
    if |c| > 2 && c[1] == ',' {
      assert c[2..][0] == c[2];
      assert LeadingSpace(c[2..]) == "";
    }
  }

  lemma ReadValueConcat(x: string, s: string)
    requires Unquoted(x) + 2 <= |x|
    ensures var n := Unquoted(x);
            ReadValue(x + s) ==
            if n == 0 || x[n + 1] != ',' then Unread else Read(x[..n], x[n + 2..] + s)
  {
    var n := Unquoted(x);
    UnquotedConcat(x, s);
    Slices(x, s, n);
    DropDrop(x, n, 2);
    Slices(x[n..], s, 2);
  }

  lemma ClosedValue(x: string, s: string, s': string, pattern: Pattern)
    requires LineEnded(x) && Inert(s) && Inert(s') && Unquoted(x) < |x|
    ensures SameReading(ReadValue(x + s), ReadValue(x + s'), pattern)
  {
    var n := Unquoted(x);
    LineEndedAfter(x, n + 1);
    assert |x[n + 1..]| > 0;
    ReadValueConcat(x, s);
    ReadValueConcat(x, s');
    if n != 0 && x[n + 1] == ',' {
      LineEndedAfter(x, n + 2);
      var y := x[n + 2..];
      EndsLineFrame(y, s, s');
      assert (y + s)[0] == y[0] == (y + s')[0];
    }
  }

  lemma ValueFrame(x: string, s: string, s': string, pattern: Pattern)
    requires LineEnded(x) && Inert(s) && Inert(s')
    ensures SameReading(ReadValue(x + s), ReadValue(x + s'), pattern)
  {
    if Unquoted(x) == |x| {
      OpenValue(x, s, pattern);
      OpenValue(x, s', pattern);
    } else {
      ClosedValue(x, s, s', pattern);
    }
  }

  /** A token of the expression behind optional white space: `\s*c`. */
  function Expect(t: string, c: char): Option<string> {
    var u := SkipSpace(t);
    if u != "" && u[0] == c then Some(u[1..]) else None
  }

  lemma ExpectFrame(x: string, s: string, c: char)
    requires LineEnded(x) && s != "" && !IsSpace(s[0]) && s[0] != c && !IsSpace(c)
    ensures match Expect(x, c)
            case None => Expect(x + s, c) == None
            case Some(y) => LineEnded(y) && Expect(x + s, c) == Some(y + s)
  {
    SkipSpaceConcat(x, s);
    LineEndedSkip(x);
    var u := SkipSpace(x);
    if u != "" {
      Slices(u, s, 1);
      if u[0] == c { LineEndedAfter(u, 1); }
    }
  }

  lemma ReadSteps(u: string, field: string)
    ensures ReadField(u, field) ==
      if !(field <= u) then Unread else
        match Expect(u[|field|..], '=')
        case None => Unread
        case Some(a) =>
          match Expect(a, '"')
          case None => Unread
          case Some(b) => ReadValue(b)
  {}

  /** A field that begins in `x` is read the same whatever inert text follows. */
  lemma ReadFrame(x: string, s: string, s': string, field: string, pattern: Pattern)
    requires LineEnded(x) && Inert(s) && Inert(s') && field != "" && NoSpace(field)
    ensures SameReading(ReadField(x + s, field), ReadField(x + s', field), pattern)
  {
    ReadSteps(x + s, field);
    ReadSteps(x + s', field);
    LiteralFrame(x, s, field);
    LiteralFrame(x, s', field);
    if field <= x {
      LineEndedAfter(x, |field|);
      var y := x[|field|..];
      ExpectFrame(y, s, '=');
      ExpectFrame(y, s', '=');
      match Expect(y, '=')
      case None =>
      case Some(a) =>
        ExpectFrame(a, s, '"');
        ExpectFrame(a, s', '"');
        match Expect(a, '"')
        case None =>
        case Some(b) => ValueFrame(b, s, s', pattern);
    }
  }

  lemma LiteralFrame(x: string, s: string, field: string)
    requires LineEnded(x) && NoSpace(field)
    ensures field <= x + s <==> field <= x
    ensures field <= x ==> (x + s)[|field|..] == x[|field|..] + s
  {
    if |field| <= |x| {
      Slices(x, s, |field|);
    } else {
      var k :| 0 <= k < |x| && x[k] == '\n' && forall m :: k <= m < |x| ==> IsSpace(x[m]);
      assert IsSpace(x[k]) && !IsSpace(field[k]);
      assert (x + s)[k] == x[k];
    }
  }

  /** Where a search succeeded. */
  function At(r: Option<Hit>): Option<string> {
    match r case None => None case Some(h) => Some(h.at)
  }

  lemma SearchSpace(w: string, s: string, m: string -> bool)
    requires AllSpace(w)
    ensures At(Find(w + s, m)) == At(Find(s, m))
  {
    SkipAllSpace(w, s);
  }

  lemma SearchSkips(x: string, m: string -> bool)
    requires x != "" && !IsSpace(x[0]) && !m(x)
    ensures At(Find(x, m)) == At(Find(NextLine(x), m))
  {
    assert SkipSpace(x) == x;
  }

  lemma CompleteLinesEnd(u: string, w: string)
    requires u != "" && CompleteLines(u) && AllSpace(w)
    ensures LineEnded(u + w)
  {
    var x := u + w;
    var k := |u| - 1;
    assert 0 <= k < |x| && x[k] == '\n' && forall m :: k <= m < |x| ==> IsSpace(x[m]);
  }

  lemma SkipCompleteLines(lines: string, w: string, s: string)
    requires CompleteLines(lines) && AllSpace(w)
    ensures var u := SkipSpace(lines);
            SkipSpace(lines + w + s) == if u == "" then SkipSpace(s) else u + w + s
  {
    Assoc(lines, w, s);
    SkipSpaceConcat(lines, w + s);
    SkipAllSpace(w, s);
    Assoc(SkipSpace(lines), w, s);
  }

  lemma NextCompleteLines(lines: string, w: string, s: string)
    requires CompleteLines(lines) && SkipSpace(lines) != ""
    ensures var u := SkipSpace(lines);
            && CompleteLines(u) && CompleteLines(NextLine(u)) && |NextLine(u)| < |lines|
            && NextLine(u + w + s) == NextLine(u) + w + s
  {
    var u := SkipSpace(lines);
    assert lines == LeadingSpace(lines) + u;
    assert u == FirstLine(u) + NextLine(u);
    assert u[|u| - 1] == lines[|lines| - 1];
    Assoc(u, w, s);
    NextLineConcat(u, w + s);
    Assoc(NextLine(u), w, s);
  }

  /** Match decisions in front of `s` and of `s'` agree, up to a relation between the matches. */
  ghost predicate Alike(s: string, s': string, m: string -> bool, same: (string, string) -> bool) {
    forall x | LineEnded(x) :: m(x + s) == m(x + s') && (m(x + s) ==> same(x + s, x + s'))
  }

  /** The lines before an edit either hold the match, alike with the old and the new text behind
      them, or play no part in it. */
  ghost predicate Framed(t: string, t': string, s: string, s': string,
                         m: string -> bool, same: (string, string) -> bool) {
    var r, r' := At(Find(t, m)), At(Find(t', m));
    || (r.Some? && r'.Some? && |r.value| > |s| && |r'.value| > |s'| && same(r.value, r'.value))
    || (r == At(Find(s, m)) && r' == At(Find(s', m)))
  }

  /** Searching two texts that share the complete lines and the indentation before an edit. */
  lemma {:induction false} FindFrame(lines: string, w: string, s: string, s': string,
                                     m: string -> bool, same: (string, string) -> bool)
    requires CompleteLines(lines) && AllSpace(w) && Alike(s, s', m, same)
    requires s != "" && !IsSpace(s[0]) && s' != "" && !IsSpace(s'[0])
    ensures Framed(lines + w + s, lines + w + s', s, s', m, same)
    decreases |lines|
  {
    SkipCompleteLines(lines, w, s);
    SkipCompleteLines(lines, w, s');
    var u := SkipSpace(lines);
    if u == "" {
      SearchSame(lines + w + s, s, m);
      SearchSame(lines + w + s', s', m);
    } else {
      NextCompleteLines(lines, w, s);
      NextCompleteLines(lines, w, s');
      FindFrame(NextLine(u), w, s, s', m, same);
      CompleteLinesEnd(u, w);
      FrameStep(lines + w + s, lines + w + s', u + w, NextLine(u) + w, s, s', m, same);
    }
  }

  lemma FrameStep(t: string, t': string, x: string, next: string, s: string, s': string,
                  m: string -> bool, same: (string, string) -> bool)
    requires LineEnded(x) && Alike(s, s', m, same)
    requires SkipSpace(t) == x + s && NextLine(x + s) == next + s
    requires SkipSpace(t') == x + s' && NextLine(x + s') == next + s'
    requires Framed(next + s, next + s', s, s', m, same)
    ensures Framed(t, t', s, s', m, same)
  {
    assert |x| > 0;
    SearchStep(t, x + s, next + s, m);
    SearchStep(t', x + s', next + s', m);
    assert m(x + s) == m(x + s');
  }

  /** Two readings of a field give the same value. */
  function SameValue(field: string): (string, string) -> bool {
    (u, u') =>
      var p, p' := ReadField(u, field), ReadField(u', field);
      p.Read? && p'.Read? && p.value == p'.value
  }

  lemma FieldsAlike(s: string, s': string, field: string, pattern: Pattern)
    requires Inert(s) && Inert(s') && field != "" && NoSpace(field)
    ensures Alike(s, s', Matcher(field, pattern), SameValue(field))
  {
    forall x | LineEnded(x)
      ensures Matcher(field, pattern)(x + s) == Matcher(field, pattern)(x + s')
      ensures Matcher(field, pattern)(x + s) ==> SameValue(field)(x + s, x + s')
    {
      ReadFrame(x, s, s', field, pattern);
    }
  }

  lemma SearchSame(t: string, s: string, m: string -> bool)
    requires SkipSpace(t) == SkipSpace(s)
    ensures At(Find(t, m)) == At(Find(s, m))
  {}

  lemma SearchStep(t: string, u: string, next: string, m: string -> bool)
    requires SkipSpace(t) == u && u != "" && NextLine(u) == next
    ensures At(Find(t, m)) == if m(u) then Some(u) else At(Find(next, m))
  {}
}
