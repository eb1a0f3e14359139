/** MODULE.bazel texts on which the update falls short: the check refuses its output, a second update
    changes it again, or a field other than the digest is lost. */
module ModuleWitnesses {
  import opened Text
  import opened LineSearch
  import opened ModuleFields
  import opened ModuleFrames
  import opened ModuleEdits
  import opened ModuleEditProofs
  import opened ModuleEditTheorems
  import opened ModuleBlocks
  import opened ModuleScan
  import opened ModuleBazel
  import opened ModuleUpdate
  import opened ChecksumManifest

  // --- texts of one block ---

  /** A block that ends the text is the whole scan. */
  lemma OneBlockScan(b: string)
    requires HEAD <= b && Close(b[|HEAD|..]) == Some(")\n")
    ensures Scan(b) == [Block(b)]
  {
    BeforeCloses(b[|HEAD|..]);
    assert b == HEAD + b[|HEAD|..];
    Assoc(HEAD, BeforeClose(b[|HEAD|..]), ")\n");
    assert ")\n"[2..] == "";
    assert StartOf(b) == Closed(b, "");
  }

  /** What the update and the check make of a text that is one block of the version. */
  lemma OneBlockUpdated(b: string, version: string, path: string, checksum: string)
    requires HEAD <= b && Close(b[|HEAD|..]) == Some(")\n")
    requires Selected(b, version) && StringValue(b, PATH) == Some(path) && NoSpace(path)
    requires Editable(b) && Hex(checksum)
    ensures var c := map[path := checksum];
            && ManifestOk(c) && Updated(b, c, version).Some?
            && var b' := Updated(b, c, version).value;
               && (Checked(b', c, version) <==> ReadsBack(b))
               && (Updated(b', c, version) == Some(b') <==> Settled(b))
               && OthersAfter(b, b')
  {
    hide ReadsBack, Settled, Editable, Checked, Updated, Close, Selected, StringValue, OthersAfter;
    var c := map[path := checksum];
    OneBlockScan(b);
    OneEntryAgrees(b, version, path, checksum);
    UpdateReturns(b, c, version);
    UpdateThenCheck(b, c, version);
    UpdateTwice(b, c, version);
    UpdatePreserves(b, c, version);
    var b' := Updated(b, c, version).value;
    JoinScan(b');
    assert Scan(b') == [Scan(b')[0]];
    JoinCons(Scan(b')[0], []);
    assert b' == Scan(b')[0].text;
  }

  lemma OneEntryAgrees(b: string, version: string, path: string, checksum: string)
    requires Scan(b) == [Block(b)] && Selected(b, version) && StringValue(b, PATH) == Some(path)
    ensures FilesAgree(b, map[path := checksum], version)
  {
    hide Selected, StringValue, Scan;
    var segs := [Block(b)];
    assert segs[1..] == [];
    var e := Reader(version)(b, 0).entry;
    assert EntriesFrom(segs, 0, Reader(version)) == Ok([e] + []);
    assert [e] + [] == [e];
    assert Paths([e]) == {path} by { assert [e][0].path in Paths([e]); }
  }

  // --- lines ---

  const INDENT := "    "

  /** The line of an entry, in front of further text. */
  function EntryLine(field: string, v: string, t: string): string {
    field + (" " + ("=" + (" " + ("\"" + (v + ("\"," + ("\n" + t)))))))
  }

  /** A value on one line that closes nothing. */
  predicate PlainValue(v: string) { v != "" && NoSpace(v) && '"' !in v && ')' !in v }

  lemma EntryReads(field: string, v: string, t: string)
    requires Word(field) && v != "" && '"' !in v
    ensures var u := EntryLine(field, v, t);
            && ReadField(u, field) == Read(v, "\n" + t) && u != "" && u[0] == field[0] && !IsSpace(u[0])
            && EndsLine("\n" + t)
  {
    assert IsSpace(' ');
    ReadPieces(EntryLine(field, v, t), field, " ", " ", v, "\n" + t);
    AfterBreak(t);
  }

  lemma Indented(s: string, m: string -> bool)
    ensures At(Find(INDENT + s, m)) == At(Find(s, m))
  {
    assert IsSpace(' ');
    SearchSpace(INDENT, s, m);
  }

  /** A search for the field finds its line. */
  lemma EntryFound(field: string, v: string, t: string, pattern: Pattern)
    requires Word(field) && v != "" && '"' !in v && pattern != HexField
    ensures At(Find(INDENT + EntryLine(field, v, t), Matcher(field, pattern))) == Some(EntryLine(field, v, t))
  {
    var u := EntryLine(field, v, t);
    EntryReads(field, v, t);
    assert ("\n" + t)[0] == '\n';
    FindHere(u, Matcher(field, pattern));
    Indented(u, Matcher(field, pattern));
  }

  /** A search for something else goes on behind the line. */
  lemma EntryPassed(field: string, v: string, t: string, other: string, pattern: Pattern)
    requires Word(field) && Word(other) && v != "" && '"' !in v && NoSpace(v)
    requires other != field || (pattern == HexField && !Hex(v))
    ensures var m := Matcher(other, pattern);
            At(Find(INDENT + EntryLine(field, v, t), m)) == At(Find(t, m))
  {
    var m := Matcher(other, pattern);
    var u := EntryLine(field, v, t);
    EntryReads(field, v, t);
    if other == field { FieldSearchesWord(field, pattern); } else { OtherMatcher(u, field, other, pattern); }
    SkipToTail(u, field, m);
    AfterBreak(t);
    SearchSame(SkipSpace("\n" + t), t, m);
    Indented(u, m);
  }

  lemma NoPrefix(field: string, u: string, pattern: Pattern)
    requires field != "" && u != "" && field[0] != u[0]
    ensures !Matcher(field, pattern)(u)
  {}

  /** A line that begins with another letter is passed. */
  lemma LinePassed(l: string, t: string, field: string, pattern: Pattern)
    requires Word(field) && l != "" && l[|l| - 1] == '\n' && '\n' !in l[..|l| - 1]
    requires !IsSpace(l[0]) && l[0] != field[0]
    ensures var m := Matcher(field, pattern); At(Find(l + t, m)) == At(Find(t, m))
  {
    hide Find, Matcher, IsSpace;
    FirstLineOf(l, t);
    NoPrefix(field, l + t, pattern);
    SearchSkips(l + t, Matcher(field, pattern));
  }

  /** No field begins at the head of a block. */
  lemma HeadPassed(t: string, field: string, pattern: Pattern)
    requires Word(field) && field[0] != 'h'
    ensures var m := Matcher(field, pattern); At(Find(HEAD + t, m)) == At(Find(t, m))
  {
    hide Find, Matcher, Word;
    assert HEAD[0] == 'h' && !IsSpace('h');
    LinePassed(HEAD, t, field, pattern);
  }

  /** No field begins at the closing line. */
  lemma EndPassed(field: string, pattern: Pattern)
    requires Word(field) && field[0] != ')'
    ensures At(Find(")\n", Matcher(field, pattern))) == None
  {
    hide Matcher, Word;
    assert !IsSpace(')') && ")\n" + "" == ")\n";
    LinePassed(")\n", "", field, pattern);
  }

  /** An entry closes no block. */
  lemma EntryCloses(field: string, v: string, t: string)
    requires ')' !in field && ')' !in v
    ensures Close(INDENT + EntryLine(field, v, t)) == Close(t)
  {
    var e := field + (" " + ("=" + (" " + ("\"" + (v + "\",\n")))));
    ModuleEditProofs.Append(field, " ", " ", v, t);
    HeadEnds(field, " ", " ", v);
    Assoc(INDENT, e, t);
    NoParenEntry(field, v);
    assert (INDENT + e)[|INDENT + e| - 1] == e[|e| - 1] == e[|e| - 3..][2];
    CloseSkips(INDENT + e, t);
  }

  lemma NoParenEntry(field: string, v: string)
    requires ')' !in field && ')' !in v
    ensures ')' !in INDENT + (field + (" " + ("=" + (" " + ("\"" + (v + "\",\n"))))))
  {
    assert ')' !in v + "\",\n";
    assert ')' !in " " + ("=" + (" " + ("\"" + (v + "\",\n"))));
  }

  lemma BodyOf(t: string)
    ensures HEAD <= HEAD + t && (HEAD + t)[|HEAD|..] == t
  {}

  lemma ClosesHere()
    ensures Close(")\n") == Some(")\n")
  {}

  lemma FirstLetters()
    ensures NAME[0] == 'n' && PATH[0] == 'd' && SHA[0] == 's'
    ensures ')' !in NAME && ')' !in PATH && ')' !in SHA
    ensures NAME != PATH && NAME != SHA && PATH != SHA
  {
    assert |NAME| == 4 && |SHA| == 6 && |PATH| == 20;
  }

  predicate NameOf(name: string, version: string) {
    PlainValue(name) && "rusty_v8_" + Slug(version) + "_" <= name
  }

  // --- a digest that is not lower-case ---

  /** A block with a digest above the path. */
  function DigestText(name: string, v: string, path: string): string {
    HEAD + (INDENT + EntryLine(NAME, name, INDENT + EntryLine(SHA, v, INDENT + EntryLine(PATH, path, ")\n"))))
  }

  lemma DigestTextSearch(name: string, v: string, path: string, field: string, pattern: Pattern)
    requires PlainValue(name) && PlainValue(v) && PlainValue(path) && Word(field) && field[0] != 'h' && field[0] != ')'
    requires field == NAME || field == PATH || field == SHA
    ensures var m, r := Matcher(field, pattern), At(Find(DigestText(name, v, path), Matcher(field, pattern)));
            var ofPath := EntryLine(PATH, path, ")\n");
            && (field == NAME && pattern == StringField ==>
                  r == Some(EntryLine(NAME, name, INDENT + EntryLine(SHA, v, INDENT + ofPath))))
            && (field == SHA && pattern == StringField ==> r == Some(EntryLine(SHA, v, INDENT + ofPath)))
            && (field == SHA && pattern == HexField && !Hex(v) ==> r == None)
            && (field == PATH && pattern != HexField ==> r == Some(ofPath))
  {
    hide EntryLine, Find, Matcher, PlainValue, Hex;
    FieldNames();
    FirstLetters();
    PlainParts(name);
    PlainParts(v);
    PlainParts(path);
    var ofPath := EntryLine(PATH, path, ")\n");
    var ofSha := EntryLine(SHA, v, INDENT + ofPath);
    HeadPassed(INDENT + EntryLine(NAME, name, INDENT + ofSha), field, pattern);
    if field == NAME {
      if pattern == StringField { EntryFound(NAME, name, INDENT + ofSha, pattern); }
    } else {
      EntryPassed(NAME, name, INDENT + ofSha, field, pattern);
      if field == SHA {
        if pattern == StringField {
          EntryFound(SHA, v, INDENT + ofPath, pattern);
        } else if pattern == HexField && !Hex(v) {
          EntryPassed(SHA, v, INDENT + ofPath, SHA, pattern);
          EntryPassed(PATH, path, ")\n", SHA, pattern);
          EndPassed(SHA, pattern);
        }
      } else if pattern != HexField {
        EntryPassed(SHA, v, INDENT + ofPath, PATH, pattern);
        EntryFound(PATH, path, ")\n", pattern);
      }
    }
  }

  lemma PlainParts(v: string)
    requires PlainValue(v)
    ensures v != "" && NoSpace(v) && '"' !in v && ')' !in v
  {}

  lemma DigestTextCloses(name: string, v: string, path: string)
    requires PlainValue(name) && PlainValue(v) && PlainValue(path)
    ensures var b := DigestText(name, v, path); HEAD <= b && Close(b[|HEAD|..]) == Some(")\n")
  {
    hide EntryLine, Close;
    FirstLetters();
    var ofSha := INDENT + EntryLine(SHA, v, INDENT + EntryLine(PATH, path, ")\n"));
    BodyOf(INDENT + EntryLine(NAME, name, ofSha));
    EntryCloses(NAME, name, ofSha);
    EntryCloses(SHA, v, INDENT + EntryLine(PATH, path, ")\n"));
    EntryCloses(PATH, path, ")\n");
    ClosesHere();
  }

  /** The path entry stands behind the digest, so it does not help. */
  lemma DigestTextValues(name: string, v: string, path: string)
    requires PlainValue(name) && PlainValue(v) && PlainValue(path) && !Hex(v)
    ensures var b := DigestText(name, v, path);
            && StringValue(b, NAME) == Some(name) && StringValue(b, PATH) == Some(path) && StringValue(b, SHA) == Some(v)
            && Editable(b) && !ReadsBack(b)
  {
    hide DigestText, EntryLine, Find, Matcher, ReadField, Hex;
    FieldNames();
    FirstLetters();
    var b := DigestText(name, v, path);
    var ofPath := EntryLine(PATH, path, ")\n");
    DigestTextSearch(name, v, path, NAME, StringField);
    DigestTextSearch(name, v, path, PATH, StringField);
    DigestTextSearch(name, v, path, PATH, LineField);
    DigestTextSearch(name, v, path, SHA, StringField);
    DigestTextSearch(name, v, path, SHA, HexField);
    EntryReads(NAME, name, INDENT + EntryLine(SHA, v, INDENT + ofPath));
    EntryReads(SHA, v, INDENT + ofPath);
    EntryReads(PATH, path, ")\n");
    ValueAt(b, NAME);
    ValueAt(b, PATH);
    ValueAt(b, SHA);
    PlainParts(name);
    PlainParts(v);
    PlainParts(path);
    LongerBefore(v, path);
    BackWeight(b, ")\n");
  }

  lemma LongerBefore(v: string, path: string)
    ensures |v| + |"\n" + (INDENT + EntryLine(PATH, path, ")\n"))| > |")\n"|
  {}

  /** The update returns, and the check refuses what it returns: a digest that is not a lower-case one is
      not replaced, and it is still the one that is read. */
  lemma DigestDrifts(version: string, name: string, v: string, path: string, checksum: string)
    requires NameOf(name, version) && PlainValue(v) && !Hex(v) && PlainValue(path) && Hex(checksum)
    ensures var text, c := DigestText(name, v, path), map[path := checksum];
            ManifestOk(c) && Updated(text, c, version).Some? && !Checked(Updated(text, c, version).value, c, version)
  {
    hide DigestText, StringValue, ReadsBack, Editable, Checked, Updated, Close, Hex;
    DigestTextCloses(name, v, path);
    DigestTextValues(name, v, path);
    PlainParts(path);
    OneBlockUpdated(DigestText(name, v, path), version, path, checksum);
  }

  // --- a blank line behind the path ---

  /** A block without a digest, with a blank line below the path. */
  function BlankText(name: string, path: string): string {
    HEAD + (INDENT + EntryLine(NAME, name, INDENT + EntryLine(PATH, path, "\n)\n")))
  }

  lemma BlankTextSearch(name: string, path: string)
    requires PlainValue(name) && PlainValue(path)
    ensures var b, ofPath := BlankText(name, path), EntryLine(PATH, path, "\n)\n");
            && At(Find(b, Matcher(NAME, StringField))) == Some(EntryLine(NAME, name, INDENT + ofPath))
            && At(Find(b, Matcher(PATH, StringField))) == Some(ofPath)
            && At(Find(b, Matcher(PATH, LineField))) == Some(ofPath)
            && At(Find(b, Matcher(SHA, HexField))) == None
  {
    hide EntryLine, Find, Matcher, PlainValue;
    FieldNames();
    FirstLetters();
    PlainParts(name);
    PlainParts(path);
    var ofPath := EntryLine(PATH, path, "\n)\n");
    var ofName := EntryLine(NAME, name, INDENT + ofPath);
    HeadPassed(INDENT + ofName, NAME, StringField);
    EntryFound(NAME, name, INDENT + ofPath, StringField);
    HeadPassed(INDENT + ofName, PATH, StringField);
    EntryPassed(NAME, name, INDENT + ofPath, PATH, StringField);
    EntryFound(PATH, path, "\n)\n", StringField);
    HeadPassed(INDENT + ofName, PATH, LineField);
    EntryPassed(NAME, name, INDENT + ofPath, PATH, LineField);
    EntryFound(PATH, path, "\n)\n", LineField);
    HeadPassed(INDENT + ofName, SHA, HexField);
    EntryPassed(NAME, name, INDENT + ofPath, SHA, HexField);
    EntryPassed(PATH, path, "\n)\n", SHA, HexField);
    BlankPassed(Matcher(SHA, HexField));
    EndPassed(SHA, HexField);
  }

  lemma BlankPassed(m: string -> bool)
    ensures At(Find("\n)\n", m)) == At(Find(")\n", m))
  {
    assert "\n" + ")\n" == "\n)\n" && IsSpace('\n');
    SearchSpace("\n", ")\n", m);
  }

  lemma BlankTextCloses(name: string, path: string)
    requires PlainValue(name) && PlainValue(path)
    ensures var b := BlankText(name, path); HEAD <= b && Close(b[|HEAD|..]) == Some(")\n")
  {
    hide EntryLine, Close;
    FirstLetters();
    var ofPath := INDENT + EntryLine(PATH, path, "\n)\n");
    BodyOf(INDENT + EntryLine(NAME, name, ofPath));
    EntryCloses(NAME, name, ofPath);
    EntryCloses(PATH, path, "\n)\n");
    assert "\n" + ")\n" == "\n)\n";
    CloseSkips("\n", ")\n");
    ClosesHere();
  }

  lemma BlankTextValues(name: string, path: string)
    requires PlainValue(name) && PlainValue(path)
    ensures var b := BlankText(name, path);
            && StringValue(b, NAME) == Some(name) && StringValue(b, PATH) == Some(path)
            && Editable(b) && !Settled(b)
  {
    hide BlankText, EntryLine, Find, Matcher, ReadField;
    FieldNames();
    var b := BlankText(name, path);
    BlankTextSearch(name, path);
    EntryReads(NAME, name, INDENT + EntryLine(PATH, path, "\n)\n"));
    EntryReads(PATH, path, "\n)\n");
    ValueAt(b, NAME);
    ValueAt(b, PATH);
    assert ("\n" + "\n)\n")[1..] == "\n)\n" && LeadingSpace("\n)\n")[0] == '\n';
  }

  /** A second update of the output changes it once more: it swallows the blank line that the digest was
      inserted before. */
  lemma BlankLineLost(version: string, name: string, path: string, checksum: string)
    requires NameOf(name, version) && PlainValue(path) && Hex(checksum)
    ensures var text, c := BlankText(name, path), map[path := checksum];
            && ManifestOk(c) && Updated(text, c, version).Some?
            && Updated(Updated(text, c, version).value, c, version) != Updated(text, c, version)
  {
    hide BlankText, StringValue, Settled, ReadsBack, Editable, Checked, Updated, Close, Hex;
    BlankTextCloses(name, path);
    BlankTextValues(name, path);
    PlainParts(path);
    OneBlockUpdated(BlankText(name, path), version, path, checksum);
  }

  // --- a path with a line break ---

  const AT_Y := "y = \",\n"
  const AT_B := "b\",\n"
  const AT_X := "x = \",\n"
  const AT_A := " = \"a\n"

  /** What stands behind the path entry of the next text. */
  function CutRest(): string { AT_Y + (AT_B + ")\n") }

  /** A path entry whose value contains a line that begins like an entry of `x`. */
  function CutPath(): string { (PATH + AT_A) + (AT_X + CutRest()) }

  /** A path entry with a space behind its comma: it is read, but nothing is inserted under it. */
  function SpacedPath(path: string, t: string): string {
    PATH + (" " + ("=" + (" " + ("\"" + (path + ("\"," + (" \n" + t)))))))
  }

  /** A block in which the closing quote of a path opens the value of `x`. */
  function CutText(name: string, path: string): string {
    HEAD + (INDENT + EntryLine(NAME, name, INDENT + SpacedPath(path, CutPath())))
  }

  lemma CutPathReads()
    ensures ReadField(CutPath(), PATH) == Read("a\nx = ", "\n" + CutRest())
    ensures ReadField(AT_X + CutRest(), "x") == Read(",\ny = ", "\nb\",\n)\n")
    ensures EndsLine("\nb\",\n)\n")
  {
    hide ReadField;
    PathText();
    XText();
    FieldNames();
    assert IsSpace(' ') && IsSpace('\n');
    ReadPieces(CutPath(), PATH, " ", " ", "a\nx = ", "\n" + CutRest());
    ReadPieces(AT_X + CutRest(), "x", " ", " ", ",\ny = ", "\nb\",\n)\n");
    AfterBreak("b\",\n)\n");
    assert "\n" + "b\",\n)\n" == "\nb\",\n)\n";
  }

  lemma PathText()
    ensures CutPath() == PATH + (" " + ("=" + (" " + ("\"" + ("a\nx = " + ("\"," + ("\n" + CutRest())))))))
  {
    hide CutRest;
    assert AT_A + (AT_X + CutRest()) == " " + ("=" + (" " + ("\"" + ("a\nx = " + ("\"," + ("\n" + CutRest()))))));
    Assoc(PATH, AT_A, AT_X + CutRest());
  }

  lemma XText()
    ensures AT_X + CutRest() == "x" + (" " + ("=" + (" " + ("\"" + (",\ny = " + ("\"," + "\nb\",\n)\n"))))))
  {}

  lemma SpacedReads(path: string, t: string)
    requires PlainValue(path)
    ensures var u := SpacedPath(path, t);
            && ReadField(u, PATH) == Read(path, " \n" + t) && u != "" && u[0] == 'd' && !IsSpace(u[0])
            && EndsLine(" \n" + t) && (" \n" + t)[0] == ' ' && SkipSpace(" \n" + t) == SkipSpace(t)
  {
    assert IsSpace(' ') && IsSpace('\n');
    FieldNames();
    ReadPieces(SpacedPath(path, t), PATH, " ", " ", path, " \n" + t);
    SkipAllSpace(" \n", t);
    LeadingSpaceConcat(" \n", t);
    assert " \n"[1] == '\n';
  }

  /** A search that does not stop at the spaced path goes on behind it. */
  lemma SpacedPassed(path: string, t: string, field: string, pattern: Pattern)
    requires PlainValue(path) && Word(field) && (field != PATH || pattern == LineField)
    ensures var m := Matcher(field, pattern); At(Find(INDENT + SpacedPath(path, t), m)) == At(Find(t, m))
  {
    var m := Matcher(field, pattern);
    var u := SpacedPath(path, t);
    FieldNames();
    SpacedReads(path, t);
    if field == PATH { FieldSearchesWord(PATH, pattern); } else { OtherMatcher(u, PATH, field, pattern); }
    SkipToTail(u, PATH, m);
    SearchSame(SkipSpace(" \n" + t), t, m);
    Indented(u, m);
  }

  /** Behind the path entry there is no further entry of a field that begins with another letter. */
  lemma RestPassed(field: string, pattern: Pattern)
    requires Word(field) && field[0] != 'y' && field[0] != 'b' && field[0] != ')'
    ensures At(Find(CutRest(), Matcher(field, pattern))) == None
  {
    hide Find, Matcher, Word;
    assert !IsSpace('y') && !IsSpace('b');
    assert AT_Y[0] == 'y' && AT_B[0] == 'b';
    LinePassed(AT_Y, AT_B + ")\n", field, pattern);
    LinePassed(AT_B, ")\n", field, pattern);
    EndPassed(field, pattern);
  }

  lemma PathLine()
    ensures var l := PATH + AT_A; |l| == 26 && l[0] == 'd' && l[|l| - 1] == '\n' && '\n' !in l[..|l| - 1]
  {
    FieldNames();
    NoBreak(PATH);
    assert (PATH + AT_A)[..25] == PATH + " = \"a";
  }

  lemma CutTextSearch(name: string, path: string)
    requires PlainValue(name) && PlainValue(path)
    ensures var b := CutText(name, path);
            && At(Find(b, Matcher(NAME, StringField))) == Some(EntryLine(NAME, name, INDENT + SpacedPath(path, CutPath())))
            && At(Find(b, Matcher(PATH, StringField))) == Some(SpacedPath(path, CutPath()))
            && At(Find(b, Matcher(PATH, LineField))) == Some(CutPath())
            && At(Find(b, Matcher(SHA, HexField))) == None
            && At(Find(b, Matcher("x", StringField))) == Some(AT_X + CutRest())
  {
    hide EntryLine, Find, Matcher, PlainValue, CutPath, CutRest, SpacedPath, ReadField;
    FieldNames();
    FirstLetters();
    PlainParts(name);
    var spaced := SpacedPath(path, CutPath());
    EntryFound(NAME, name, INDENT + spaced, StringField);
    HeadPassed(INDENT + EntryLine(NAME, name, INDENT + spaced), NAME, StringField);
    CutTextPassed(name, path, PATH, StringField);
    SpacedFound(path, CutPath());
    CutTextPassed(name, path, PATH, LineField);
    SpacedPassed(path, CutPath(), PATH, LineField);
    CutPathFound();
    CutTextPassed(name, path, SHA, HexField);
    SpacedPassed(path, CutPath(), SHA, HexField);
    CutPathPassed(SHA, HexField);
    LinePassed(AT_X, CutRest(), SHA, HexField);
    RestPassed(SHA, HexField);
    CutTextPassed(name, path, "x", StringField);
    SpacedPassed(path, CutPath(), "x", StringField);
    CutPathPassed("x", StringField);
    XFound();
  }

  lemma CutTextPassed(name: string, path: string, field: string, pattern: Pattern)
    requires PlainValue(name) && Word(field) && field != NAME && field[0] != 'h'
    ensures var m := Matcher(field, pattern);
            At(Find(CutText(name, path), m)) == At(Find(INDENT + SpacedPath(path, CutPath()), m))
  {
    hide EntryLine, Find, Matcher, CutPath, SpacedPath, Word;
    FieldNames();
    var rest := INDENT + SpacedPath(path, CutPath());
    HeadPassed(INDENT + EntryLine(NAME, name, rest), field, pattern);
    EntryPassed(NAME, name, rest, field, pattern);
  }

  lemma SpacedFound(path: string, t: string)
    requires PlainValue(path)
    ensures At(Find(INDENT + SpacedPath(path, t), Matcher(PATH, StringField))) == Some(SpacedPath(path, t))
  {
    SpacedReads(path, t);
    FindHere(SpacedPath(path, t), Matcher(PATH, StringField));
    Indented(SpacedPath(path, t), Matcher(PATH, StringField));
  }

  lemma CutPathFound()
    ensures At(Find(CutPath(), Matcher(PATH, LineField))) == Some(CutPath())
  {
    hide Find, CutRest, ReadField, EndsLine;
    CutPathReads();
    PathLine();
    assert CutPath()[0] == 'd' && !IsSpace('d');
    FindHere(CutPath(), Matcher(PATH, LineField));
  }

  lemma XFound()
    ensures At(Find(AT_X + CutRest(), Matcher("x", StringField))) == Some(AT_X + CutRest())
  {
    hide Find, CutRest, ReadField, EndsLine;
    CutPathReads();
    assert (AT_X + CutRest())[0] == 'x' && !IsSpace('x');
    FindHere(AT_X + CutRest(), Matcher("x", StringField));
  }

  lemma CutPathPassed(field: string, pattern: Pattern)
    requires Word(field) && field[0] != 'd'
    ensures var m := Matcher(field, pattern); At(Find(CutPath(), m)) == At(Find(AT_X + CutRest(), m))
  {
    hide Find, CutRest;
    PathLine();
    assert !IsSpace('d');
    LinePassed(PATH + AT_A, AT_X + CutRest(), field, pattern);
  }

  lemma CutTextCloses(name: string, path: string)
    requires PlainValue(name) && PlainValue(path)
    ensures var b := CutText(name, path); HEAD <= b && Close(b[|HEAD|..]) == Some(")\n")
  {
    hide EntryLine, Close, SpacedPath;
    FirstLetters();
    var spaced := INDENT + SpacedPath(path, CutPath());
    BodyOf(INDENT + EntryLine(NAME, name, spaced));
    EntryCloses(NAME, name, spaced);
    SpacedCloses(path, CutPath());
    CloseSkips(PATH + AT_A, AT_X + CutRest());
    CloseSkips(AT_X, CutRest());
    CloseSkips(AT_Y, AT_B + ")\n");
    CloseSkips(AT_B, ")\n");
    ClosesHere();
  }

  lemma SpacedCloses(path: string, t: string)
    requires PlainValue(path)
    ensures Close(INDENT + SpacedPath(path, t)) == Close(t)
  {
    var e := PATH + (" " + ("=" + (" " + ("\"" + (path + "\", \n")))));
    SpacedAppend(path, t);
    Assoc(INDENT, e, t);
    FirstLetters();
    assert ')' !in path + "\", \n";
    assert ')' !in " " + ("=" + (" " + ("\"" + (path + "\", \n"))));
    assert (INDENT + e)[|INDENT + e| - 1] == e[|e| - 1] == '\n';
    CloseSkips(INDENT + e, t);
  }

  lemma SpacedAppend(path: string, t: string)
    ensures SpacedPath(path, t) == PATH + (" " + ("=" + (" " + ("\"" + (path + "\", \n"))))) + t
  {
    assert "\"," + (" \n" + t) == "\", \n" + t;
    Assoc(path, "\", \n", t);
    Assoc("\"", path + "\", \n", t);
    Assoc(" ", "\"" + (path + "\", \n"), t);
    Assoc("=", " " + ("\"" + (path + "\", \n")), t);
    Assoc(" ", "=" + (" " + ("\"" + (path + "\", \n"))), t);
    Assoc(PATH, " " + ("=" + (" " + ("\"" + (path + "\", \n")))), t);
  }

  lemma CutTextValues(name: string, path: string)
    requires PlainValue(name) && PlainValue(path)
    ensures var b := CutText(name, path);
            && StringValue(b, NAME) == Some(name) && StringValue(b, PATH) == Some(path) && Editable(b)
            && StringValue(b, "x") == Some(",\ny = ") && FieldAfter(b, "x") == None
  {
    hide CutText, EntryLine, Find, Matcher, ReadField, CutPath, SpacedPath, CutRest;
    FieldNames();
    var b := CutText(name, path);
    CutTextSearch(name, path);
    EntryReads(NAME, name, INDENT + SpacedPath(path, CutPath()));
    SpacedReads(path, CutPath());
    CutPathReads();
    ValueAt(b, NAME);
    ValueAt(b, PATH);
    ValueAt(b, "x");
    BehindIs(b, CutRest());
    CutSize();
    RestPassed("x", StringField);
    ValueAt(CutRest(), "x");
  }

  lemma CutSize()
    ensures |",\ny = "| + |"\nb\",\n)\n"| == |CutRest()|
  {}

  /** The update loses a field: its value was opened by the closing quote of the path entry, and the
      inserted digest line cuts it off. */
  lemma FieldLost(version: string, name: string, path: string, checksum: string)
    requires NameOf(name, version) && PlainValue(path) && Hex(checksum)
    ensures var text, c := CutText(name, path), map[path := checksum];
            && ManifestOk(c) && Updated(text, c, version).Some?
            && StringValue(text, "x") == Some(",\ny = ") && StringValue(Updated(text, c, version).value, "x") == None
  {
    hide CutText, StringValue, FieldAfter, Settled, ReadsBack, Editable, Checked, Updated, Close, Hex;
    CutTextCloses(name, path);
    CutTextValues(name, path);
    PlainParts(path);
    FieldNames();
    OneBlockUpdated(CutText(name, path), version, path, checksum);
    assert Word("x") && "x" != SHA;
  }
}
