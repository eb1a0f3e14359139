/** The `http_file` blocks of a MODULE.bazel text, and why an edit leaves the blocks where they are. */
module ModuleBlocks {
  import opened Text
  import opened LineSearch
  import opened ModuleFields
  import opened ModuleFrames
  import opened ModuleEdits
  import opened ModuleEditProofs

  const HEAD := "http_file(\n"

  /** From a line start: the text from the first line that begins with `)`. */
  function Close(t: string): (r: Option<string>)
    decreases |t|
    ensures r.Some? ==> r.value != "" && r.value[0] == ')' && |r.value| <= |t|
  {
    if t == "" then None else if t[0] == ')' then Some(t) else
      assert t == FirstLine(t) + NextLine(t);
      Close(NextLine(t))
  }

  /** One match of the block expression: the head line up to the closing parenthesis that starts
      a line, and the line break right behind it if there is one. */
  predicate IsBlock(b: string) {
    && HEAD <= b
    && (Close(b[|HEAD|..]) == Some(")") || Close(b[|HEAD|..]) == Some(")\n"))
  }

  lemma {:induction false} CloseLines(x: string, t: string)
    requires CompleteLines(x)
    ensures Close(x + t) == match Close(x) case None => Close(t) case Some(y) => Some(y + t)
    decreases |x|
  {
    if x == "" {
      assert x + t == t;
    } else if x[0] != ')' {
      assert x == FirstLine(x) + NextLine(x);
      assert '\n' in x;
      assert CompleteLines(NextLine(x));
      NextLineConcat(x, t);
      CloseLines(NextLine(x), t);
    }
  }

  /** Text without a parenthesis closes nothing; unless it ends at a line start, the rest of its
      last line belongs to it. */
  lemma {:induction false} CloseSkips(p: string, t: string)
    requires ')' !in p
    ensures Close(p + t) == if CompleteLines(p) then Close(t) else Close(NextLine(t))
    decreases |p|
  {
    if p == "" {
      assert p + t == t;
    } else {
      assert p == FirstLine(p) + NextLine(p);
      NextLineConcat(p, t);
      if '\n' in p {
        CloseSkips(NextLine(p), t);
        assert CompleteLines(p) <==> CompleteLines(NextLine(p)) by {
          if NextLine(p) != "" { assert p[|p| - 1] == NextLine(p)[|NextLine(p)| - 1]; }
        }
      }
    }
  }

  lemma CloseAppend(x: string, t: string)
    requires Close(x).Some?
    ensures Close(x + t) == Some(Close(x).value + t)
    decreases |x|
  {
    if x[0] != ')' {
      assert x == FirstLine(x) + NextLine(x);
      assert NextLine(x) != "";
      NextLineConcat(x, t);
      CloseAppend(NextLine(x), t);
    }
  }

  lemma SpaceCloses(w: string)
    requires AllSpace(w)
    ensures Close(w) == None
  {
    assert !IsSpace(')');
    assert w + "" == w;
    CloseSkips(w, "");
  }

  /** Swallowing blank lines behind a digest leaves the closing line alone. */
  lemma TailCloses(after: string)
    requires EndsLine(after)
    ensures Close(NextLine(AfterEndsLine(after))) == Close(NextLine(after))
  {
    var w, t := LeadingSpace(after), SkipSpace(after);
    if t == "" {
      assert after == w;
      assert w == FirstLine(w) + NextLine(w);
      SpaceSuffix(FirstLine(w), NextLine(w));
      SpaceCloses(NextLine(w));
    } else {
      var last := LastBreak(w);
      var a, b := NextLine(w), NextLine(last);
      NextLineConcat(w, t);
      NextLineConcat(last, t);
      NextOfSpace(w);
      CloseSkips(a, t);
      CloseSkips(b, t);
    }
  }

  lemma NextOfSpace(w: string)
    requires AllSpace(w) && '\n' in w
    ensures ')' !in NextLine(w) && ')' !in NextLine(LastBreak(w))
    ensures CompleteLines(NextLine(w)) <==> CompleteLines(NextLine(LastBreak(w)))
  {
    var last := LastBreak(w);
    LastBreakOnce(w);
    NextNoParen(w);
    NextNoParen(last);
    NextEnd(w);
    NextEnd(last);
    BreakEnd(w);
  }

  lemma BreakEnd(w: string)
    requires '\n' in w
    ensures CompleteLines(w) <==> CompleteLines(LastBreak(w))
  {
    SameEnd(w, w[..|w| - |LastBreak(w)|], LastBreak(w));
  }

  lemma NextEnd(w: string)
    requires '\n' in w
    ensures CompleteLines(w) <==> CompleteLines(NextLine(w))
  {
    SameEnd(w, FirstLine(w), NextLine(w));
  }

  lemma NextNoParen(w: string)
    requires AllSpace(w)
    ensures ')' !in NextLine(w)
  {
    assert !IsSpace(')') && ')' !in w;
    assert w == FirstLine(w) + NextLine(w);
  }

  /** Whether a text ends at a line start is decided by any last part of it. */
  lemma SameEnd(w: string, a: string, b: string)
    requires w == a + b && (b == "" ==> CompleteLines(a))
    ensures CompleteLines(w) <==> CompleteLines(b)
  {
    if b != "" { assert w[|w| - 1] == b[|b| - 1]; }
  }

  /** An edit behind the head line of a block leaves the head in place. */
  lemma EditBody(b: string, b': string, lines: string, w: string, s: string, s': string)
    returns (body: string)
    requires HEAD <= b && EditAt(b, b', lines, w, s, s') && s != "" && s[0] != 'h'
    ensures CompleteLines(body) && lines == HEAD + body
    ensures b[|HEAD|..] == body + (w + s) && HEAD <= b' && b'[|HEAD|..] == body + (w + s')
  {
    assert b[..|HEAD|] == HEAD;
    assert b[0] == 'h' && !IsSpace('h');
    Assoc(lines, w, s);
    FirstChar(w, s);
    FirstChar(lines, w + s);
    assert lines != "";
    var n := |lines|;
    assert b[n - 1] == lines[n - 1] == '\n';
    assert forall i :: 0 <= i < |HEAD| - 1 ==> HEAD[i] != '\n';
    assert forall i :: 0 <= i < |HEAD| ==> b[i] == HEAD[i];
    assert n >= |HEAD|;
    body := lines[|HEAD|..];
    assert lines[..|HEAD|] == HEAD;
    Assoc(lines, w, s);
    Assoc(lines, w, s');
    Slices(lines, w + s, |HEAD|);
    Slices(lines, w + s', |HEAD|);
  }

  lemma FirstChar(w: string, s: string)
    requires s != ""
    ensures (w + s)[0] == if w == "" then s[0] else w[0]
  {}

  lemma CloseFrame(body: string, x: string, x': string)
    requires CompleteLines(body) && |x| > 2
    requires Close(body + x) == Some(")") || Close(body + x) == Some(")\n")
    requires Close(x) == Close(x')
    ensures Close(body + x') == Close(body + x)
  {
    CloseLines(body, x);
    CloseLines(body, x');
  }

  lemma SplitDigest(u: string, v: string, after: string) returns (p: string)
    requires ReadField(u, SHA) == Read(v, after) && Hex(v)
    ensures u == p + after && p != "" && p[|p| - 1] == ',' && ')' !in p
  {
    var w1, w2 := ReadSplits(u, SHA);
    p := SHA + (w1 + ("=" + (w2 + ("\"" + (v + "\",")))));
    assert !IsSpace(')');
    JoinDigest(SHA, w1, w2, v, after);
  }

  lemma JoinDigest(f: string, w1: string, w2: string, v: string, x: string)
    ensures f + (w1 + ("=" + (w2 + ("\"" + (v + ("\"," + x))))))
         == f + (w1 + ("=" + (w2 + ("\"" + (v + "\","))))) + x
  {
    Assoc(v, "\",", x);
    Assoc("\"", v + "\",", x);
    Assoc(w2, "\"" + (v + "\","), x);
    Assoc("=", w2 + ("\"" + (v + "\",")), x);
    Assoc(w1, "=" + (w2 + ("\"" + (v + "\","))), x);
    Assoc(f, w1 + ("=" + (w2 + ("\"" + (v + "\",")))), x);
  }

  lemma DigestCloses(w: string, u: string, v: string, after: string)
    requires ReadField(u, SHA) == Read(v, after) && Hex(v) && AllSpace(w)
    ensures Close(w + u) == Close(NextLine(after))
  {
    var p := SplitDigest(u, v, after);
    Assoc(w, p, after);
    NoParenIn(w, p);
    CloseSkips(w + p, after);
  }

  lemma NoParenIn(w: string, p: string)
    requires AllSpace(w) && ')' !in p && p != "" && p[|p| - 1] != '\n'
    ensures ')' !in w + p && !CompleteLines(w + p)
  {
    assert !IsSpace(')');
    assert (w + p)[|w + p| - 1] == p[|p| - 1];
  }

  lemma ReplacedBlock(b: string, checksum: string)
    requires IsBlock(b) && Find(b, Matcher(SHA, HexField)).Some? && Hex(checksum)
    ensures Edited(b, checksum).Some?
    ensures var b' := Edited(b, checksum).value;
            IsBlock(b') && Close(b'[|HEAD|..]) == Close(b[|HEAD|..])
  {
    var lines, w, s, after := ReplaceShape(b, checksum);
    var rest := AfterEndsLine(after);
    var s' := ShaLine(checksum) + rest;
    AfterEndsLineKeeps(after);
    DigestReads(checksum, rest);
    assert SHA <= s;
    var body := EditBody(b, Edited(b, checksum).value, lines, w, s, s');
    DigestCloses(w, s, ReadField(s, SHA).value, after);
    DigestCloses(w, s', checksum, rest);
    TailCloses(after);
    CloseFrame(body, w + s, w + s');
  }

  lemma InsertCloses(body: string, w: string, head: string, line: string, rest: string)
    requires CompleteLines(body) && EndsEntry(head) && AllSpace(w) && ')' !in line
    requires var r := Close(body + (w + (head + rest))); r == Some(")") || r == Some(")\n")
    ensures Close(body + (w + (head + (w + (line + ("\n" + rest))))))
         == Close(body + (w + (head + rest)))
  {
    var x := body + (w + head);
    var y := w + (line + "\n");
    Rebracket(body, w, head, rest);
    Rebracket(body, w, head, y + rest);
    Rebracket(w, line, "\n", rest);
    Assoc(w + (line + "\n"), "", rest);
    Assoc(body, w, head);
    EntryClosesNothing(body + w, head, rest);
    CloseLines(x, y + rest);
    NoParenLine(w, line);
    CloseSkips(y, rest);
  }

  lemma NoParenLine(w: string, line: string)
    requires AllSpace(w) && ')' !in line
    ensures ')' !in w + (line + "\n") && CompleteLines(w + (line + "\n"))
  {
    assert !IsSpace(')');
  }

  lemma EntryClosesNothing(p: string, head: string, rest: string)
    requires EndsEntry(head)
    requires var r := Close(p + head + rest); r == Some(")") || r == Some(")\n")
    ensures CompleteLines(p + head) && Close(p + head) == None && Close(p + head + rest) == Close(rest)
  {
    var x := p + head;
    assert head[|head| - 3..][1] == ',' && head[|head| - 3..][2] == '\n';
    assert x[|x| - 2] == ',' && x[|x| - 1] == '\n';
    LongClose(x);
    CloseLines(x, rest);
  }

  lemma LongClose(x: string)
    requires |x| >= 2 && x[|x| - 2] == ',' && x[|x| - 1] == '\n'
    ensures Close(x).Some? ==> |Close(x).value| > 2
  {
    var q := CloseEnd(x);
    if Close(x).Some? {
      var y := Close(x).value;
      assert y[|y| - 1] == x[|x| - 1];
      assert |y| == 1 || y[|y| - 2] == x[|x| - 2];
    }
  }

  lemma Rebracket(a: string, b: string, c: string, d: string)
    ensures a + (b + (c + d)) == a + (b + c) + d
    ensures a + (b + (c + d)) == (a + (b + c)) + d
  {}

  /** A closing line found in `x` is a last part of it. */
  lemma CloseEnd(x: string) returns (p: string)
    ensures match Close(x) case None => true case Some(y) => x == p + y
    decreases |x|
  {
    p := "";
    if x != "" && x[0] != ')' {
      assert x == FirstLine(x) + NextLine(x);
      var q := CloseEnd(NextLine(x));
      p := FirstLine(x) + q;
    }
  }

  lemma NoParen(checksum: string)
    requires Hex(checksum)
    ensures ')' !in ShaLine(checksum)
  {}

  lemma InsertedBlock(b: string, checksum: string)
    requires IsBlock(b) && Find(b, Matcher(SHA, HexField)).None? && Find(b, Matcher(PATH, LineField)).Some?
    requires Hex(checksum)
    ensures Edited(b, checksum).Some?
    ensures var b' := Edited(b, checksum).value;
            IsBlock(b') && Close(b'[|HEAD|..]) == Close(b[|HEAD|..])
  {
    var lines, w, head, rest := InsertShape(b, checksum);
    assert head[0] == PATH[0];
    var body := EditBody(b, Edited(b, checksum).value, lines, w, head + rest, head + Insertion(w, checksum, rest));
    NoParen(checksum);
    InsertCloses(body, w, head, ShaLine(checksum), rest);
  }
}
