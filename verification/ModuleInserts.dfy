/** Inserting a digest line behind the path entry: what a search finds before and after. */
module ModuleInserts {
  import opened Text
  import opened LineSearch
  import opened ModuleFields
  import opened ModuleFrames
  import opened ModuleEdits
  import opened ModuleEditProofs

  /** A text whose first quote does not close a value. */
  predicate Unclosing(t: string) {
    var n := Unquoted(t);
    |t| - n < 2 || t[n + 1] != ','
  }

  /** The only quote is the one that ends the entry. */
  predicate OneQuote(x: string) { |x| >= 3 && x[|x| - 3..] == "\",\n" && '"' !in x[..|x| - 3] }

  lemma EntryEnds(x: string)
    requires EndsEntry(x)
    ensures x[|x| - 3] == '"' && x[|x| - 2] == ',' && x[|x| - 1] == '\n'
  {
    assert x[|x| - 3..][0] == x[|x| - 3] && x[|x| - 3..][1] == x[|x| - 2] && x[|x| - 3..][2] == x[|x| - 1];
  }

  lemma EntryEnded(x: string)
    requires |x| >= 3 && x[|x| - 3] == '"' && x[|x| - 2] == ',' && x[|x| - 1] == '\n'
    ensures EndsEntry(x)
  {}

  /** Dropping part of what stands before the closing quote. */
  lemma EntryDrop(x: string, n: nat)
    requires EndsEntry(x) && n <= |x| - 3
    ensures EndsEntry(x[n..]) && (OneQuote(x) ==> OneQuote(x[n..]))
  {
    EntryEnds(x);
    EntryEnded(x[n..]);
    assert x[n..][..|x[n..]| - 3] == x[n..|x| - 3];
    assert forall i :: n <= i < |x| - 3 ==> x[i] in x[..|x| - 3];
  }

  lemma EntrySkips(x: string, t: string)
    requires EndsEntry(x)
    ensures var u := SkipSpace(x);
            && EndsEntry(u) && !IsSpace(u[0]) && (OneQuote(x) ==> OneQuote(u)) && |u| <= |x|
            && SkipSpace(x + t) == u + t
  {
    EntryEnds(x);
    SkipSpaceConcat(x, t);
    var n := |LeadingSpace(x)|;
    assert x == LeadingSpace(x) + SkipSpace(x);
    assert AllSpace(LeadingSpace(x));
    assert forall i :: 0 <= i < n ==> IsSpace(x[i]) by {
      forall i | 0 <= i < n ensures IsSpace(x[i]) { assert x[i] == LeadingSpace(x)[i]; }
    }
    assert n <= |x| - 3;
    assert SkipSpace(x) == x[n..];
    EntryDrop(x, n);
  }

  /** A token inside an entry is found there, whatever follows. */
  lemma ExpectIn(x: string, t: string, c: char)
    requires EndsEntry(x)
    ensures match Expect(x, c)
            case None => Expect(x + t, c) == None
            case Some(y) => Expect(x + t, c) == Some(y + t) && |y| < |x|
    ensures Expect(x, c).Some? && c != '"' ==> EndsEntry(Expect(x, c).value)
                                               && (OneQuote(x) ==> OneQuote(Expect(x, c).value))
    ensures Expect(x, c).Some? && c == '"' ==> Expect(x, c).value == ",\n" || EndsEntry(Expect(x, c).value)
    ensures Expect(x, c).Some? && c == '"' && OneQuote(x) ==> Expect(x, c).value == ",\n"
  {
    EntrySkips(x, t);
    var u := SkipSpace(x);
    EntryEnds(u);
    Slices(u, t, 1);
    if u[0] == c {
      if |u| == 3 {
        assert u[1..] == ",\n";
      } else {
        EntryDrop(u, 1);
        assert u[0] in u[..|u| - 3];
      }
    }
  }

  /** What stands behind the opening quote of a field that begins in `x`. */
  function OpenedAt(x: string, field: string): Option<string> {
    if !(field <= x) then None else
      match Expect(x[|field|..], '=')
      case None => None
      case Some(a) => Expect(a, '"')
  }

  lemma FieldDrop(x: string, t: string, field: string)
    requires EndsEntry(x) && Word(field)
    ensures field <= x + t <==> field <= x
    ensures field <= x ==> EndsEntry(x[|field|..]) && (OneQuote(x) ==> OneQuote(x[|field|..]))
                           && (x + t)[|field|..] == x[|field|..] + t
  {
    EntryEnds(x);
    assert (x + t)[|x| - 3] == '"';
    assert '"' !in field;
    if field <= x + t {
      assert forall i :: 0 <= i < |field| ==> field[i] == (x + t)[i];
      assert |field| <= |x| - 3;
      Slices(x, t, |field|);
      EntryDrop(x, |field|);
    }
  }

  /** Reading a field that begins in `x` comes down to the value behind its opening quote. */
  lemma OpenedIn(x: string, t: string, field: string)
    requires EndsEntry(x) && Word(field)
    ensures ReadField(x + t, field) == match OpenedAt(x, field) case None => Unread case Some(b) => ReadValue(b + t)
    ensures OpenedAt(x, field).Some? ==>
              (OpenedAt(x, field).value == ",\n" || EndsEntry(OpenedAt(x, field).value))
    ensures OpenedAt(x, field).Some? && OneQuote(x) ==> OpenedAt(x, field).value == ",\n"
  {
    hide EndsEntry, OneQuote, Expect, ReadValue, Word;
    ReadSteps(x + t, field);
    FieldDrop(x, t, field);
    if field <= x {
      var y := x[|field|..];
      ExpectIn(y, t, '=');
      match Expect(y, '=')
      case None =>
      case Some(a) => ExpectIn(a, t, '"');
    }
  }

  lemma EndsLineIn(y: string, t: string)
    requires y != "" && y[|y| - 1] == '\n'
    ensures EndsLine(y + t) == EndsLine(y + "") && (y + t)[0] == y[0]
  {
    SkipSpaceConcat(y, t);
    SkipSpaceConcat(y, "");
    LeadingSpaceConcat(y, t);
    LeadingSpaceConcat(y, "");
    assert y == LeadingSpace(y) + SkipSpace(y);
    if SkipSpace(y) == "" { assert y[|y| - 1] in LeadingSpace(y); }
  }

  /** A value closed inside the entry reads the same whatever follows. */
  lemma ClosedIn(b: string, t: string, t': string, pattern: Pattern)
    requires EndsEntry(b)
    ensures SameReading(ReadValue(b + t), ReadValue(b + t'), pattern)
    ensures var p := ReadValue(b + t); p.Read? ==> |p.value| + |p.after| > |t|
  {
    EntryEnds(b);
    var n := Unquoted(b);
    assert n <= |b| - 3;
    ReadValueConcat(b, t);
    ReadValueConcat(b, t');
    var y := b[n + 2..];
    assert y[|y| - 1] == b[|b| - 1];
    EndsLineIn(y, t);
    EndsLineIn(y, t');
  }

  /** A value opened by the closing quote runs into what follows. */
  lemma OpenIn(t: string)
    ensures var p := ReadValue(",\n" + t);
            p.Read? ==> Stray(p.value) && |p.value| + |p.after| == |t|
    ensures Unclosing(t) ==> ReadValue(",\n" + t).Unread?
  {
    var c := ",\n";
    assert Unquoted(c) == 2 by { assert c[1..][1..] == ""; }
    UnquotedConcat(c, t);
    var n := Unquoted(t);
    DropPast(c, t, n);
    var p := ReadValue(c + t);
    if p.Read? {
      assert p.value == (c + t)[..n + 2];
      assert p.value[..2] == c;
    }
  }

  /** An entry `x` in front of the old and of the new text: what is read in the new one was read
      before; what is lost had its opening quote at the end of `x`. */
  lemma ReadInsert(x: string, t: string, t': string, field: string, pattern: Pattern)
    requires EndsEntry(x) && Word(field) && Unclosing(t')
    ensures var p, p' := ReadField(x + t, field), ReadField(x + t', field);
            && (Accepts(p', pattern) ==> Accepts(p, pattern) && p.value == p'.value && |p.value| + |p.after| > |t|)
            && (Accepts(p, pattern) && !Accepts(p', pattern) ==>
                  Stray(p.value) && |p.value| + |p.after| == |t| && OpenedAt(x, field) == Some(",\n"))
            && (OneQuote(x) ==> !Accepts(p', pattern))
  {
    hide EndsEntry, OneQuote, ReadValue, Word, Unclosing, OpenedAt, Stray;
    OpenedIn(x, t, field);
    OpenedIn(x, t', field);
    match OpenedAt(x, field)
    case None =>
    case Some(b) =>
      if b == ",\n" {
        OpenIn(t);
        OpenIn(t');
      } else {
        ClosedIn(b, t, t', pattern);
      }
  }

  lemma OpenOneQuote(x: string, field: string)
    requires EndsEntry(x) && Word(field) && OpenedAt(x, field) == Some(",\n")
    ensures OneQuote(x)
  {
    var y := x[|field|..];
    assert x == field + y;
    ExpectSplits(y, '=');
    var a := Expect(y, '=').value;
    ExpectSplits(a, '"');
    var w1, w2 := LeadingSpace(y), LeadingSpace(a);
    assert !IsSpace('"');
    assert ['"'] + ",\n" == "\",\n";
    OneQuoteText(x, field, w1, w2);
  }

  lemma OneQuoteText(x: string, field: string, w1: string, w2: string)
    requires x == field + (w1 + (['='] + (w2 + "\",\n")))
    requires '"' !in field && '"' !in w1 && '"' !in w2
    ensures OneQuote(x)
  {
    assert x == (field + w1 + ['='] + w2) + "\",\n";
    assert x[..|x| - 3] == field + w1 + ['='] + w2;
  }

  // --- searching ---

  /** The step of a search from one line of `lines` to the next. */
  lemma LineStep(lines: string, t: string)
    requires EndsEntry(lines)
    ensures var u := SkipSpace(lines);
            && EndsEntry(u) && SkipSpace(lines + t) == u + t && u + t != ""
            && NextLine(u + t) == NextLine(u) + t && |NextLine(u)| < |lines|
            && (NextLine(u) == "" || EndsEntry(NextLine(u)))
            && (OneQuote(lines) || OneQuote(u) ==> NextLine(u) == "" || OneQuote(NextLine(u)))
  {
    EntrySkips(lines, t);
    var u := SkipSpace(lines);
    EntryEnds(u);
    NextLineConcat(u, t);
    var first, next := FirstLine(u), NextLine(u);
    assert u == first + next;
    assert '\n' in u;
    if |first| <= |u| - 3 {
      EntryDrop(u, |first|);
      assert next == u[|first|..];
    } else {
      assert forall i :: 0 <= i < |first| - 1 ==> first[i] != '\n' by { FirstLineOnce(u); }
      assert next == "" by { NoMore(u); }
    }
  }

  lemma {:induction false} FirstLineOnce(u: string)
    ensures forall i :: 0 <= i < |FirstLine(u)| - 1 ==> FirstLine(u)[i] != '\n'
    ensures '\n' in u ==> FirstLine(u) != "" && FirstLine(u)[|FirstLine(u)| - 1] == '\n'
  {
    if u != "" && u[0] != '\n' {
      FirstLineOnce(u[1..]);
      assert '\n' in u <==> '\n' in u[1..];
    }
  }

  /** A first line that reaches into the end of an entry reaches its line break. */
  lemma NoMore(u: string)
    requires EndsEntry(u) && |FirstLine(u)| > |u| - 3
    ensures NextLine(u) == ""
  {
    EntryEnds(u);
    FirstLineOnce(u);
    var first := FirstLine(u);
    assert u == first + NextLine(u);
    assert first[|first| - 1] == u[|first| - 1];
    assert '\n' in u;
  }

  /** Behind a lone quote no line begins a readable field. */
  lemma {:induction false} FindOneQuote(lines: string, t': string, field: string, pattern: Pattern)
    requires lines == "" || OneQuote(lines)
    requires Word(field) && Unclosing(t')
    ensures var m := Matcher(field, pattern); At(Find(lines + t', m)) == At(Find(t', m))
    decreases |lines|
  {
    hide Unclosing, OneQuote;
    if lines == "" {
      assert lines + t' == t';
    } else {
      OneQuoteEnds(lines);
      LineStep(lines, t');
      var u := SkipSpace(lines);
      EntrySkips(lines, t');
      ReadInsert(u, t', t', field, pattern);
      FindOneQuote(NextLine(u), t', field, pattern);
      SearchStep(lines + t', u + t', NextLine(u) + t', Matcher(field, pattern));
    }
  }

  lemma OneQuoteEnds(x: string)
    requires OneQuote(x)
    ensures EndsEntry(x)
  {}

  /** The first match of the old text and of the new one: the same, inside the lines; or each
      behind them; or the old one opened by the last quote of the lines, and the new one behind. */
  ghost predicate Inserted(r: Option<string>, r': Option<string>, t: string, t': string, field: string,
                           m: string -> bool) {
    || (r.Some? && r'.Some? && SameValue(field)(r.value, r'.value)
        && Weight(ReadField(r.value, field)) > |t|)
    || (r == At(Find(t, m)) && r' == At(Find(t', m)))
    || (r.Some? && ReadField(r.value, field).Read? && Stray(ReadField(r.value, field).value)
        && Weight(ReadField(r.value, field)) == |t| && r' == At(Find(t', m)))
  }

  /** How much text there is from the beginning of a value on, its closing quote and comma aside. */
  function Weight(p: Parsed): nat { if p.Read? then |p.value| + |p.after| else 0 }

  /** The match decision at a line of `lines`. */
  lemma MatchInsert(u: string, t: string, t': string, field: string, pattern: Pattern)
    requires EndsEntry(u) && Word(field) && Unclosing(t')
    ensures var m := Matcher(field, pattern);
            && (m(u + t') ==> m(u + t) && SameValue(field)(u + t, u + t') && Weight(ReadField(u + t, field)) > |t|)
            && (m(u + t) && !m(u + t') ==>
                  && ReadField(u + t, field).Read? && Stray(ReadField(u + t, field).value)
                  && Weight(ReadField(u + t, field)) == |t| && OneQuote(u))
  {
    hide Unclosing, OneQuote, EndsEntry, Stray, OpenedAt;
    ReadInsert(u, t, t', field, pattern);
    if Matcher(field, pattern)(u + t) && !Matcher(field, pattern)(u + t') { OpenOneQuote(u, field); }
  }

  lemma {:induction false} FindInsert(lines: string, t: string, t': string, field: string, pattern: Pattern)
    requires lines == "" || EndsEntry(lines)
    requires Word(field) && Unclosing(t')
    ensures var m := Matcher(field, pattern);
            Inserted(At(Find(lines + t, m)), At(Find(lines + t', m)), t, t', field, m)
    decreases |lines|
  {
    hide Unclosing, OneQuote, EndsEntry, Stray, Matcher, Weight, Find, SkipSpace, NextLine, SameValue, ReadField;
    var m := Matcher(field, pattern);
    if lines == "" {
      assert lines + t == t && lines + t' == t';
    } else {
      LineStep(lines, t);
      LineStep(lines, t');
      var u := SkipSpace(lines);
      MatchInsert(u, t, t', field, pattern);
      SearchStep(lines + t, u + t, NextLine(u) + t, m);
      SearchStep(lines + t', u + t', NextLine(u) + t', m);
      if m(u + t) && !m(u + t') {
        FindOneQuote(NextLine(u), t', field, pattern);
      } else if !m(u + t) {
        FindInsert(NextLine(u), t, t', field, pattern);
      }
    }
  }

  // --- the edited block ---

  /** The inserted text closes nothing. */
  lemma InsertionUnclosing(w: string, checksum: string, rest: string)
    requires AllSpace(w) && Hex(checksum)
    ensures Unclosing(Insertion(w, checksum, rest))
  {
    HexText(checksum);
    FieldNames();
    LinePieces(checksum, "\n" + rest);
    var u := ShaLine(checksum) + ("\n" + rest);
    var head := w + (SHA + " = ");
    assert !IsSpace('"') && '"' !in head;
    var t := checksum + ("\"," + ("\n" + rest));
    assert ShaLine(checksum) == SHA + " = " + ("\"" + (checksum + "\","));
    assert Insertion(w, checksum, rest) == head + "\"" + t;
    UnquotedIs(head, t);
    assert t[0] == checksum[0];
  }

  /** Searching in the inserted text for another field finds what stands behind it. */
  lemma InsertionSkipped(w: string, checksum: string, rest: string, field: string, pattern: Pattern)
    requires AllSpace(w) && Hex(checksum) && Word(field) && field != SHA
    ensures var m := Matcher(field, pattern);
            At(Find(Insertion(w, checksum, rest), m)) == At(Find(rest, m))
  {
    var m := Matcher(field, pattern);
    var x := ShaLine(checksum) + ("\n" + rest);
    FieldNames();
    HexText(checksum);
    AfterBreak(rest);
    LinePieces(checksum, "\n" + rest);
    ReadPieces(x, SHA, " ", " ", checksum, "\n" + rest);
    OtherMatcher(x, SHA, field, pattern);
    SkipToTail(x, SHA, m);
    SearchSpace(w, x, m);
    SearchSame(SkipSpace("\n" + rest), rest, m);
  }

  /** Searching in it for a digest finds the inserted one. */
  lemma InsertionFound(w: string, checksum: string, rest: string, pattern: Pattern)
    requires AllSpace(w) && Hex(checksum) && pattern != LineField
    ensures var u := ShaLine(checksum) + ("\n" + rest);
            && At(Find(Insertion(w, checksum, rest), Matcher(SHA, pattern))) == Some(u)
            && ReadField(u, SHA) == Read(checksum, "\n" + rest) && EndsLine("\n" + rest)
  {
    var u := ShaLine(checksum) + ("\n" + rest);
    AfterBreak(rest);
    DigestReads(checksum, "\n" + rest);
    FindHere(u, Matcher(SHA, pattern));
    SearchSpace(w, u, Matcher(SHA, pattern));
  }
}
