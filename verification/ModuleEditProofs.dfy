/** The fields of a block before and after `block_with_sha256`. */
module ModuleEditProofs {
  import opened Text
  import opened LineSearch
  import opened ModuleFields
  import opened ModuleFrames
  import opened ModuleEdits

  /** The edit finds something to do: a lower-case digest to replace, or a path entry that ends its
      line right after the comma. */
  predicate Editable(block: string) {
    Find(block, Matcher(SHA, HexField)).Some? || Find(block, Matcher(PATH, LineField)).Some?
  }

  /** After the edit a check reads the new digest: there was none, it was lower-case, or nothing
      was replaced and the old one opens its value behind the path entry. */
  predicate ReadsBack(block: string) {
    match Find(block, Matcher(SHA, StringField))
    case None => true
    case Some(g) =>
      FindSplits(block, Matcher(SHA, StringField));
      Hex(ReadField(g.at, SHA).value)
      || (Find(block, Matcher(SHA, HexField)).None? && OpensBehind(block, ReadField(g.at, SHA)))
  }

  /** The opening quote of the value stands behind the path entry, or is the entry's closing one. */
  predicate OpensBehind(block: string, p: Parsed)
    requires p.Read?
  {
    match Find(block, Matcher(PATH, LineField))
    case None => false
    case Some(d) =>
      FindSplits(block, Matcher(PATH, LineField));
      |p.value| + |p.after| < |ReadField(d.at, PATH).after|
  }

  /** A value whose opening quote is really the closing quote of another entry. */
  predicate Stray(v: string) { ",\n" <= v }

  lemma LastBreakOnce(w: string)
    requires '\n' in w
    ensures LastBreak(LastBreak(w)) == LastBreak(w)
    ensures AllSpace(w) ==> AllSpace(LastBreak(w))
  {
    hide IsSpace;
    var s := LastBreak(w);
    if AllSpace(w) {
      forall i | 0 <= i < |s| ensures IsSpace(s[i]) { assert s[i] == w[|w| - |s| + i]; }
    }
  }

  lemma AfterEndsLineKeeps(after: string)
    requires EndsLine(after)
    ensures var rest := AfterEndsLine(after);
            && SkipSpace(rest) == SkipSpace(after) && EndsLine(rest)
            && AfterEndsLine(rest) == rest
  {
    if SkipSpace(after) != "" {
      var w := LastBreak(LeadingSpace(after));
      LastBreakOnce(LeadingSpace(after));
      var t := SkipSpace(after);
      SkipAllSpace(w, t);
      LeadingSpaceConcat(w, t);
      SkipAllSpace(w, "");
      assert LeadingSpace(t) == "";
      assert w + "" == w;
    }
  }

  lemma LinePieces(checksum: string, after: string)
    requires Hex(checksum)
    ensures Pieces(ShaLine(checksum) + after, SHA, " ", " ", checksum, after)
  {
    assert IsSpace(' ');
    assert '"' !in checksum;
    assert SHA + " = \"" == SHA + (" " + ("=" + (" " + "\"")));
  }

  lemma HexText(v: string)
    requires Hex(v)
    ensures NoSpace(v) && '"' !in v && '\n' !in v
  {}

  lemma FieldNames()
    ensures Word(NAME) && Word(PATH) && Word(SHA)
  {}

  lemma HexIsString()
    ensures forall y :: Matcher(SHA, HexField)(y) ==> Matcher(SHA, StringField)(y)
  {}

  /** An edit keeps the complete lines and the indentation before it. */
  ghost predicate EditAt(b: string, b': string, lines: string, w: string, s: string, s': string) {
    && CompleteLines(lines) && AllSpace(w)
    && b == lines + w + s && b' == lines + w + s'
  }

  /** Replacing a digest: the entry `s` becomes the digest line before the same remaining text.
      Neither opens or closes a value of another entry. */
  lemma ReplaceShape(b: string, checksum: string)
    returns (lines: string, w: string, s: string, after: string)
    requires Find(b, Matcher(SHA, HexField)).Some? && Hex(checksum)
    ensures EndsLine(after)
    ensures Edited(b, checksum).Some?
    ensures EditAt(b, Edited(b, checksum).value, lines, w, s, ShaLine(checksum) + AfterEndsLine(after))
    ensures Inert(s) && Inert(ShaLine(checksum) + AfterEndsLine(after))
    ensures At(Find(b, Matcher(SHA, HexField))) == Some(s) && Matcher(SHA, HexField)(s)
    ensures ReadField(s, SHA).Read? && ReadField(s, SHA).after == after && Hex(ReadField(s, SHA).value)
  {
    FindSplits(b, Matcher(SHA, HexField));
    var h := Find(b, Matcher(SHA, HexField)).value;
    lines, w, s, after := h.before, h.indent, h.at, ReadField(h.at, SHA).after;
    FieldNames();
    var w1, w2 := ReadSplits(s, SHA);
    HexText(ReadField(s, SHA).value);
    PiecesInert(s, SHA, w1, w2, ReadField(s, SHA).value, after);
    HexText(checksum);
    var rest := AfterEndsLine(after);
    LinePieces(checksum, rest);
    assert NoSpace(" ") || AllSpace(" ");
    PiecesInert(ShaLine(checksum) + rest, SHA, " ", " ", checksum, rest);
    Assoc(lines + w, ShaLine(checksum), rest);
  }

  /** The text that is inserted: an indented digest line. */
  function Insertion(w: string, checksum: string, rest: string): string {
    w + (ShaLine(checksum) + ("\n" + rest))
  }

  /** Inserting a digest: the path entry `s` keeps its text `head` up to the line break. */
  lemma InsertShape(b: string, checksum: string)
    returns (lines: string, w: string, head: string, rest: string)
    requires Find(b, Matcher(SHA, HexField)).None? && Find(b, Matcher(PATH, LineField)).Some?
    ensures Edited(b, checksum).Some?
    ensures EditAt(b, Edited(b, checksum).value, lines, w, head + rest, head + Insertion(w, checksum, rest))
    ensures EndsEntry(head) && PATH <= head
    ensures At(Find(b, Matcher(PATH, LineField))) == Some(head + rest)
    ensures ReadField(head + rest, PATH).Read? && ReadField(head + rest, PATH).after == "\n" + rest
  {
    FindSplits(b, Matcher(PATH, LineField));
    hide ReadField, EndsLine, EndsEntry, SkipSpace, LeadingSpace, Find;
    var d := Find(b, Matcher(PATH, LineField)).value;
    lines, w := d.before, d.indent;
    var s := d.at;
    var v := ReadField(s, PATH).value;
    var after := ReadField(s, PATH).after;
    rest := after[1..];
    assert after == "\n" + rest;
    var w1, w2 := ReadSplits(s, PATH);
    InsertedText(PATH, w1, w2, v, w, ShaLine(checksum), rest);
    head := s[..|s| - |rest|];
    Rejoin(lines + w, head, w, ShaLine(checksum), rest);
  }

  lemma InsertedText(f: string, w1: string, w2: string, v: string, w: string, line: string, rest: string)
    ensures var head := f + (w1 + ("=" + (w2 + ("\"" + (v + "\",\n")))));
            var s := f + (w1 + ("=" + (w2 + ("\"" + (v + ("\"," + ("\n" + rest)))))));
            && s == head + rest && s[..|s| - |rest|] == head && EndsEntry(head)
            && f + (w1 + ("=" + (w2 + ("\"" + (v + ("\"," + ("\n" + (w + (line + ("\n" + rest)))))))))) 
               == head + (w + (line + ("\n" + rest)))
  {
    var head := f + (w1 + ("=" + (w2 + ("\"" + (v + "\",\n")))));
    var s := f + (w1 + ("=" + (w2 + ("\"" + (v + ("\"," + ("\n" + rest)))))));
    Append(f, w1, w2, v, rest);
    Append(f, w1, w2, v, w + (line + ("\n" + rest)));
    assert s[..|s| - |rest|] == head;
    HeadEnds(f, w1, w2, v);
  }

  /** The text up to and including the line break that ends an entry. */
  ghost predicate EndsEntry(head: string) { |head| >= 3 && head[|head| - 3..] == "\",\n" }

  lemma HeadEnds(f: string, w1: string, w2: string, v: string)
    ensures EndsEntry(f + (w1 + ("=" + (w2 + ("\"" + (v + "\",\n"))))))
  {
    assert f + (w1 + ("=" + (w2 + ("\"" + (v + "\",\n")))))
        == (f + (w1 + ("=" + (w2 + ("\"" + v))))) + "\",\n";
  }

  lemma Append(f: string, w1: string, w2: string, v: string, x: string)
    ensures f + (w1 + ("=" + (w2 + ("\"" + (v + ("\"," + ("\n" + x)))))))
         == f + (w1 + ("=" + (w2 + ("\"" + (v + "\",\n"))))) + x
  {
    assert "\"," + ("\n" + x) == "\",\n" + x;
    Assoc(v, "\",\n", x);
    Assoc("\"", v + "\",\n", x);
    Assoc(w2, "\"" + (v + "\",\n"), x);
    Assoc("=", w2 + ("\"" + (v + "\",\n")), x);
    Assoc(w1, "=" + (w2 + ("\"" + (v + "\",\n"))), x);
    Assoc(f, w1 + ("=" + (w2 + ("\"" + (v + "\",\n")))), x);
  }

  lemma Rejoin(p: string, head: string, w: string, line: string, rest: string)
    ensures p + head + w + line + "\n" + rest == p + (head + (w + (line + ("\n" + rest))))
  {}

  lemma SkipToTail(u: string, field: string, m: string -> bool)
    requires Word(field) && WordSearch(m) && !m(u) && ReadField(u, field).Read?
    requires NoSpace(ReadField(u, field).value) && EndsLine(ReadField(u, field).after)
    ensures At(Find(u, m)) == At(Find(SkipSpace(ReadField(u, field).after), m))
  {
    var w1, w2 := ReadSplits(u, field);
    NoBreak(ReadField(u, field).value);
    EntrySearch(u, field, w1, w2, ReadField(u, field).value, ReadField(u, field).after, m);
  }

  lemma OtherMatcher(u: string, field: string, other: string, pattern: Pattern)
    requires Word(field) && Word(other) && other != field && ReadField(u, field).Read?
    ensures WordSearch(Matcher(other, pattern)) && !Matcher(other, pattern)(u)
  {
    FieldSearchesWord(other, pattern);
    var w1, w2 := ReadSplits(u, field);
    OtherField(u, field, w1, w2, ReadField(u, field).value, ReadField(u, field).after, other);
  }

  /** The first value found, read off the position of the match. */
  lemma ValueAt(b: string, field: string)
    ensures StringValue(b, field) ==
            match At(Find(b, Matcher(field, StringField)))
            case None => None
            case Some(u) => if ReadField(u, field).Read? then Some(ReadField(u, field).value) else None
  {
    FindSplits(b, Matcher(field, StringField));
  }

  /** With both searches reduced to the text behind the edit, or both decided before it, a field
      has the same value in the old and in the new block. */
  lemma FrameValue(b: string, b': string, lines: string, w: string, s: string, s': string, field: string)
    requires EditAt(b, b', lines, w, s, s') && Inert(s) && Inert(s') && Word(field)
    requires var m := Matcher(field, StringField); At(Find(s, m)) == At(Find(s', m))
    ensures StringValue(b', field) == StringValue(b, field)
  {
    FieldsAlike(s, s', field, StringField);
    FindFrame(lines, w, s, s', Matcher(field, StringField), SameValue(field));
    ValueAt(b, field);
    ValueAt(b', field);
  }

  lemma FindHere(u: string, m: string -> bool)
    requires u != "" && !IsSpace(u[0]) && m(u)
    ensures At(Find(u, m)) == Some(u)
  {
    assert SkipSpace(u) == u;
  }

  lemma AfterBreak(t: string)
    ensures EndsLine("\n" + t) && SkipSpace("\n" + t) == SkipSpace(t)
  {
    assert IsSpace('\n');
    SkipAllSpace("\n", t);
    assert ("\n" + t)[1..] == t;
    assert LeadingSpace("\n" + t)[0] == '\n';
  }

  // --- replacing a digest ---

  /** Every other field reads the same after a digest was replaced. */
  lemma ReplacedFieldKept(b: string, checksum: string, field: string)
    requires Find(b, Matcher(SHA, HexField)).Some? && Hex(checksum) && Word(field) && field != SHA
    ensures Edited(b, checksum).Some?
    ensures StringValue(Edited(b, checksum).value, field) == StringValue(b, field)
  {
    var m := Matcher(field, StringField);
    FieldNames();
    var lines, w, s, after := ReplaceShape(b, checksum);
    var rest := AfterEndsLine(after);
    var s' := ShaLine(checksum) + rest;
    LinePieces(checksum, rest);
    ReadPieces(s', SHA, " ", " ", checksum, rest);
    AfterEndsLineKeeps(after);
    HexText(checksum);
    HexText(ReadField(s, SHA).value);
    OtherMatcher(s, SHA, field, StringField);
    OtherMatcher(s', SHA, field, StringField);
    SkipToTail(s, SHA, m);
    SkipToTail(s', SHA, m);
    FrameValue(b, Edited(b, checksum).value, lines, w, s, s', field);
  }

  lemma DigestReads(checksum: string, rest: string)
    requires Hex(checksum) && EndsLine(rest)
    ensures var u := ShaLine(checksum) + rest;
            && ReadField(u, SHA) == Read(checksum, rest) && u != "" && !IsSpace(u[0])
            && Matcher(SHA, StringField)(u) && Matcher(SHA, HexField)(u)
  {
    LinePieces(checksum, rest);
    ReadPieces(ShaLine(checksum) + rest, SHA, " ", " ", checksum, rest);
    Slices(ShaLine(checksum), rest, 1);
    assert (ShaLine(checksum) + rest)[0] == ShaLine(checksum)[0] == 's';
    Reads(ShaLine(checksum) + rest, SHA, Read(checksum, rest), StringField);
    Reads(ShaLine(checksum) + rest, SHA, Read(checksum, rest), HexField);
  }

  lemma Reads(u: string, field: string, p: Parsed, pattern: Pattern)
    requires ReadField(u, field) == p && Accepts(p, pattern)
    ensures Matcher(field, pattern)(u)
  {}

  /** The digest line `u` is the one a further edit replaces. */
  ghost predicate DigestAt(b: string, u: string, checksum: string, rest: string) {
    && EndsLine(rest) && u == ShaLine(checksum) + rest && ReadField(u, SHA) == Read(checksum, rest)
    && At(Find(b, Matcher(SHA, HexField))) == Some(u)
  }

  /** The replaced digest stands where the old one stood, and the rest of its line is settled. */
  lemma ReplacedDigest(b: string, checksum: string) returns (u: string, rest: string)
    requires Find(b, Matcher(SHA, HexField)).Some? && Hex(checksum)
    ensures Edited(b, checksum).Some? && DigestAt(Edited(b, checksum).value, u, checksum, rest)
    ensures AfterEndsLine(rest) == rest
  {
    FieldNames();
    var lines, w, s, after := ReplaceShape(b, checksum);
    AfterEndsLineKeeps(after);
    rest := AfterEndsLine(after);
    u := ShaLine(checksum) + rest;
    DigestReads(checksum, rest);
    FindHere(u, Matcher(SHA, HexField));
    FieldsAlike(s, u, SHA, HexField);
    FindFrame(lines, w, s, u, Matcher(SHA, HexField), SameValue(SHA));
  }

  /** What a check reads after a digest was replaced: the new one if the old one was the first to be
      read, that is, if the value read before was lower-case; otherwise the old value still. */
  lemma ReplacedReads(b: string, checksum: string)
    requires Find(b, Matcher(SHA, HexField)).Some? && Hex(checksum)
    ensures Edited(b, checksum).Some? && StringValue(b, SHA).Some?
    ensures StringValue(Edited(b, checksum).value, SHA)
         == if Hex(StringValue(b, SHA).value) then Some(checksum) else StringValue(b, SHA)
  {
    FieldNames();
    var wide, narrow := Matcher(SHA, StringField), Matcher(SHA, HexField);
    var b' := Edited(b, checksum).value;
    var lines, w, s, after := ReplaceShape(b, checksum);
    AfterEndsLineKeeps(after);
    var s' := ShaLine(checksum) + AfterEndsLine(after);
    DigestReads(checksum, AfterEndsLine(after));
    HexIsString();
    FindHere(s', wide);
    FindHere(s, wide);
    FieldsAlike(s, s', SHA, StringField);
    FindFrame(lines, w, s, s', wide, SameValue(SHA));
    ValueAt(b, SHA);
    ValueAt(b', SHA);
    FindSplits(b, wide);
    FirstHex(b, s);
  }

  /** The first value read is lower-case exactly if it is the entry that is replaced. */
  lemma FirstHex(b: string, s: string)
    requires At(Find(b, Matcher(SHA, HexField))) == Some(s) && Matcher(SHA, HexField)(s)
    ensures match At(Find(b, Matcher(SHA, StringField)))
            case None => false
            case Some(u) => ReadField(u, SHA).Read? && (u == s <==> Hex(ReadField(u, SHA).value))
  {
    var wide, narrow := Matcher(SHA, StringField), Matcher(SHA, HexField);
    HexIsString();
    FindSplits(b, wide);
    if Find(b, wide).None? || Hex(ReadField(Find(b, wide).value.at, SHA).value) {
      FindNarrower(b, narrow, wide);
    }
  }
}
