/** What `block_with_sha256` does to the fields of any block, and what it does a second time. */
module ModuleEditTheorems {
  import opened Text
  import opened LineSearch
  import opened ModuleFields
  import opened ModuleFrames
  import opened ModuleEdits
  import opened ModuleEditProofs
  import opened ModuleInserts

  /** The old and the new block, split where the digest line is inserted. */
  lemma InsertSplit(b: string, checksum: string) returns (pre: string, w: string, rest: string)
    requires Find(b, Matcher(SHA, HexField)).None? && Find(b, Matcher(PATH, LineField)).Some? && Hex(checksum)
    ensures Edited(b, checksum).Some?
    ensures b == pre + rest && Edited(b, checksum).value == pre + Insertion(w, checksum, rest)
    ensures EndsEntry(pre) && AllSpace(w) && Unclosing(Insertion(w, checksum, rest))
    ensures var d := At(Find(b, Matcher(PATH, LineField)));
            d.Some? && ReadField(d.value, PATH).Read? && ReadField(d.value, PATH).after == "\n" + rest
  {
    var lines, indent, head, r := InsertShape(b, checksum);
    pre, w, rest := lines + indent + head, indent, r;
    Assoc(lines + indent, head, rest);
    Assoc(lines + indent, head, Insertion(w, checksum, rest));
    EntryEnds(head);
    assert pre[|pre| - 3] == head[|head| - 3] && pre[|pre| - 2] == head[|head| - 2]
        && pre[|pre| - 1] == head[|head| - 1];
    EntryEnded(pre);
    InsertionUnclosing(w, checksum, rest);
  }

  /** The text behind the line of the path entry that a digest line is inserted under. */
  function BehindPath(block: string): string {
    match Find(block, Matcher(PATH, LineField))
    case None => ""
    case Some(d) =>
      var p := ReadField(d.at, PATH);
      if p.Read? && p.after != "" then p.after[1..] else ""
  }

  /** The value of the field is opened by the closing quote of the path entry, and a digest line is
      going to be inserted right there. */
  predicate RunsOn(block: string, field: string) {
    && Find(block, Matcher(SHA, HexField)).None? && Find(block, Matcher(PATH, LineField)).Some?
    && match At(Find(block, Matcher(field, StringField)))
       case None => false
       case Some(u) => Weight(ReadField(u, field)) == |BehindPath(block)|
  }

  /** What another field reads as after the edit. */
  function FieldAfter(block: string, field: string): Option<string> {
    if RunsOn(block, field) then StringValue(BehindPath(block), field) else StringValue(block, field)
  }

  /** What a search for another field finds in a block with an inserted digest. */
  lemma InsertedFound(b: string, checksum: string, field: string)
    requires Find(b, Matcher(SHA, HexField)).None? && Find(b, Matcher(PATH, LineField)).Some? && Hex(checksum)
    requires Word(field) && field != SHA
    ensures Edited(b, checksum).Some?
    ensures var m, rest := Matcher(field, StringField), BehindPath(b);
            Inserted(At(Find(b, m)), At(Find(Edited(b, checksum).value, m)), rest, rest, field, m)
  {
    var pre, w, rest := InsertSplit(b, checksum);
    BehindIs(b, rest);
    hide *;
    FindInsert(pre, rest, Insertion(w, checksum, rest), field, StringField);
    InsertionSkipped(w, checksum, rest, field, StringField);
    SameInserted(At(Find(b, Matcher(field, StringField))), At(Find(Edited(b, checksum).value, Matcher(field, StringField))),
                 rest, Insertion(w, checksum, rest), field, Matcher(field, StringField));
  }

  lemma SameInserted(r: Option<string>, r': Option<string>, t: string, t': string, field: string, m: string -> bool)
    requires Inserted(r, r', t, t', field, m) && At(Find(t', m)) == At(Find(t, m))
    ensures Inserted(r, r', t, t, field, m)
  {}

  /** Inserting a digest: a field reads as before, unless the inserted line cuts off its value; then
      what counts is its next entry, behind the inserted line. */
  lemma InsertedField(b: string, checksum: string, field: string)
    requires Find(b, Matcher(SHA, HexField)).None? && Find(b, Matcher(PATH, LineField)).Some? && Hex(checksum)
    requires Word(field) && field != SHA
    ensures Edited(b, checksum).Some?
    ensures StringValue(Edited(b, checksum).value, field) == FieldAfter(b, field)
    ensures RunsOn(b, field) ==> StringValue(b, field).Some? && Stray(StringValue(b, field).value)
  {
    hide Stray, Find, Matcher, Edited, BehindPath, StringValue, Word, Weight, ReadField;
    InsertedFound(b, checksum, field);
    FoundWithin(BehindPath(b), field, StringField);
    ValueAt(b, field);
    ValueAt(BehindPath(b), field);
    ValueAt(Edited(b, checksum).value, field);
  }

  lemma BehindIs(b: string, rest: string)
    requires var d := At(Find(b, Matcher(PATH, LineField)));
             d.Some? && ReadField(d.value, PATH).Read? && ReadField(d.value, PATH).after == "\n" + rest
    ensures BehindPath(b) == rest
  {
    assert ("\n" + rest)[1..] == rest;
  }

  /** A value is shorter than the text it is read from. */
  lemma WeightWithin(u: string, field: string)
    ensures ReadField(u, field).Read? ==> Weight(ReadField(u, field)) < |u|
  {
    var w1, w2 := ReadSplits(u, field);
  }

  lemma NotHex(b: string)
    requires Find(b, Matcher(SHA, HexField)).None?
    ensures match StringValue(b, SHA) case None => true case Some(v) => !Hex(v)
  {
    HexIsString();
    FindSplits(b, Matcher(SHA, StringField));
    if Find(b, Matcher(SHA, StringField)).Some? {
      var u := Find(b, Matcher(SHA, StringField)).value.at;
      if Hex(ReadField(u, SHA).value) { FindNarrower(b, Matcher(SHA, HexField), Matcher(SHA, StringField)); }
    }
  }

  /** The condition for reading the new digest back, in terms of the weight of the old entry. */
  lemma BackWeight(b: string, rest: string)
    requires Find(b, Matcher(SHA, HexField)).None?
    requires var d := At(Find(b, Matcher(PATH, LineField)));
             d.Some? && ReadField(d.value, PATH).Read? && ReadField(d.value, PATH).after == "\n" + rest
    ensures ReadsBack(b) <==>
              match At(Find(b, Matcher(SHA, StringField)))
              case None => true
              case Some(u) => Weight(ReadField(u, SHA)) <= |rest|
  {
    FindSplits(b, Matcher(SHA, StringField));
    FindSplits(b, Matcher(PATH, LineField));
    NotHex(b);
  }

  /** A search in the rest of a block finds something no longer than the rest. */
  lemma FoundWithin(t: string, field: string, pattern: Pattern)
    ensures match At(Find(t, Matcher(field, pattern)))
            case None => true
            case Some(u) => ReadField(u, field).Read? && Weight(ReadField(u, field)) < |t|
  {
    FindSplits(t, Matcher(field, pattern));
    if Find(t, Matcher(field, pattern)).Some? { WeightWithin(Find(t, Matcher(field, pattern)).value.at, field); }
  }

  /** What a check reads after a digest was inserted. */
  lemma InsertedReads(b: string, checksum: string)
    requires Find(b, Matcher(SHA, HexField)).None? && Find(b, Matcher(PATH, LineField)).Some? && Hex(checksum)
    ensures Edited(b, checksum).Some?
    ensures StringValue(Edited(b, checksum).value, SHA)
         == if ReadsBack(b) then Some(checksum) else StringValue(b, SHA)
  {
    var pre, w, rest := InsertSplit(b, checksum);
    BackWeight(b, rest);
    hide EndsEntry, Unclosing, Insertion, Stray, Find, Matcher, Edited, ReadsBack, StringValue, Word, Weight, ReadField;
    FieldNames();
    var t' := Insertion(w, checksum, rest);
    FindInsert(pre, rest, t', SHA, StringField);
    InsertionFound(w, checksum, rest, StringField);
    FoundWithin(rest, SHA, StringField);
    ValueAt(b, SHA);
    ValueAt(Edited(b, checksum).value, SHA);
  }

  /** The inserted digest is the one a further edit replaces. */
  lemma NewDigest(b: string, checksum: string) returns (u: string, rest: string)
    requires Find(b, Matcher(SHA, HexField)).None? && Find(b, Matcher(PATH, LineField)).Some? && Hex(checksum)
    ensures Edited(b, checksum).Some?
    ensures DigestAt(Edited(b, checksum).value, u, checksum, "\n" + rest)
    ensures var d := At(Find(b, Matcher(PATH, LineField)));
            d.Some? && ReadField(d.value, PATH).Read? && ReadField(d.value, PATH).after == "\n" + rest
  {
    var pre, w, r := InsertSplit(b, checksum);
    rest := r;
    u := ShaLine(checksum) + ("\n" + rest);
    hide EndsEntry, Unclosing, Insertion, Stray, Edited;
    FieldNames();
    FindInsert(pre, rest, Insertion(w, checksum, rest), SHA, HexField);
    InsertionFound(w, checksum, rest, HexField);
  }

  // --- the theorems ---

  /** After the edit a check reads the new digest exactly under the stated condition, and otherwise
      still the old value, which is no lower-case digest. */
  lemma DigestSet(b: string, checksum: string)
    requires Editable(b) && Hex(checksum)
    ensures Edited(b, checksum).Some?
    ensures StringValue(Edited(b, checksum).value, SHA)
         == if ReadsBack(b) then Some(checksum) else StringValue(b, SHA)
    ensures !ReadsBack(b) ==> StringValue(b, SHA).Some? && !Hex(StringValue(b, SHA).value)
  {
    if Find(b, Matcher(SHA, HexField)).Some? {
      ReplacedReads(b, checksum);
    } else {
      InsertedReads(b, checksum);
    }
  }

  /** Every other field after the edit, exactly. A replaced digest changes none of them. An inserted
      one changes a field only if the closing quote of the path entry opens its value. */
  lemma OtherFieldsAfter(b: string, checksum: string, field: string)
    requires Editable(b) && Hex(checksum) && Word(field) && field != SHA
    ensures Edited(b, checksum).Some?
    ensures StringValue(Edited(b, checksum).value, field) == FieldAfter(b, field)
    ensures RunsOn(b, field) ==> StringValue(b, field).Some? && Stray(StringValue(b, field).value)
  {
    if Find(b, Matcher(SHA, HexField)).Some? {
      ReplacedFieldKept(b, checksum, field);
    } else {
      InsertedField(b, checksum, field);
    }
  }

  /** Where the pieces of an entry stand in it. */
  lemma PiecesAt(u: string, field: string, w1: string, w2: string, v: string, after: string)
    requires Pieces(u, field, w1, w2, v, after) && '"' !in field
    ensures var k := |field| + |w1| + 1 + |w2|;
            && |u| == k + 3 + |v| + |after| && u[k] == '"'
            && (forall i :: 0 <= i < k ==> u[i] != '"')
            && (forall i :: 0 <= i < |v| ==> u[k + 1 + i] == v[i])
  {
    var head := field + w1 + "=" + w2;
    assert '"' !in head by { assert !IsSpace('"'); }
    assert u == head + ("\"" + (v + ("\"," + after)));
    assert forall i :: 0 <= i < |head| ==> u[i] == head[i];
  }

  /** A path without a line break cuts off nothing: every other field reads as before. */
  lemma OneLinePath(b: string, field: string)
    requires Word(field)
    requires match At(Find(b, Matcher(PATH, LineField)))
             case None => true
             case Some(d) => ReadField(d, PATH).Read? && '\n' !in ReadField(d, PATH).value
    ensures !RunsOn(b, field) && FieldAfter(b, field) == StringValue(b, field)
  {
    if RunsOn(b, field) {
      FindSplits(b, Matcher(PATH, LineField));
      FindSplits(b, Matcher(field, StringField));
      var h, g := Find(b, Matcher(PATH, LineField)).value, Find(b, Matcher(field, StringField)).value;
      var d, u := h.at, g.at;
      BreakInPath(b, h.before + h.indent, d, g.before, g.indent, u, field);
    }
  }

  /** An entry whose value is opened by the closing quote of the path entry begins on a line of its own
      inside that entry's value. */
  lemma BreakInPath(b: string, p: string, d: string, lines: string, w: string, u: string, field: string)
    requires b == p + d && b == lines + w + u && CompleteLines(lines) && AllSpace(w) && Word(field)
    requires ReadField(d, PATH).Read? && ReadField(u, field).Read?
    requires |ReadField(u, field).value| + |ReadField(u, field).after| + 1 == |ReadField(d, PATH).after|
    ensures '\n' in ReadField(d, PATH).value
  {
    hide ReadField;
    FieldNames();
    var Read(v, after) := ReadField(u, field);
    var Read(path, behind) := ReadField(d, PATH);
    var w1, w2 := ReadSplits(u, field);
    var x1, x2 := ReadSplits(d, PATH);
    PiecesAt(u, field, w1, w2, v, after);
    PiecesAt(d, PATH, x1, x2, path, behind);
    InValue(b, p, d, lines, w, u, path, |PATH| + |x1| + 1 + |x2|, |field| + |w1| + 1 + |w2|);
  }

  /** The same on positions: the path's opening quote is at `k` in `d`, the closing one at `n` in `u`. */
  lemma InValue(b: string, p: string, d: string, lines: string, w: string, u: string, path: string, k: nat, n: nat)
    requires b == p + d && b == lines + w + u && CompleteLines(lines) && AllSpace(w)
    requires k < |d| && d[k] == '"' && n <= |u| && forall i :: 0 <= i < n ==> u[i] != '"'
    requires |d| - k - 1 - |path| == |u| - n && forall i :: 0 <= i < |path| && k + 1 + i < |d| ==> d[k + 1 + i] == path[i]
    ensures '\n' in path
  {
    var open := |p| + k;
    var start := |lines| + |w|;
    assert b[open] == d[k] == '"';
    assert !IsSpace('"');
    assert forall i :: start <= i < start + n ==> b[i] == u[i - start] != '"';
    assert forall i :: |lines| <= i < start ==> b[i] == w[i - |lines|] != '"';
    assert open < |lines|;
    var q := |lines| - 1;
    assert b[q] == lines[q] == '\n';
    assert b[q] == d[q - |p|] == path[q - open - 1];
  }

  /** With lower-case digests only, the new digest is always read back. */
  lemma LowerReadsBack(b: string)
    requires StringValue(b, SHA).Some? ==> Hex(StringValue(b, SHA).value)
    ensures ReadsBack(b)
  {
    FindSplits(b, Matcher(SHA, StringField));
  }

  /** The text behind the comma of the path entry starts with a blank line. */
  predicate BlankAfterPath(block: string) {
    match Find(block, Matcher(PATH, LineField))
    case None => false
    case Some(d) =>
      var p := ReadField(d.at, PATH);
      p.Read? && p.after != "" && (SkipSpace(p.after[1..]) == "" || '\n' in LeadingSpace(p.after[1..]))
  }

  lemma AgainAt(b: string, u: string, checksum: string, rest: string)
    requires DigestAt(b, u, checksum, rest)
    ensures Edited(b, checksum).Some?
    ensures Edited(b, checksum) == Some(b) <==> AfterEndsLine(rest) == rest
  {
    FindSplits(b, Matcher(SHA, HexField));
    var h := Find(b, Matcher(SHA, HexField)).value;
    Assoc(h.before + h.indent, ShaLine(checksum), AfterEndsLine(rest));
    var p := h.before + h.indent;
    if Edited(b, checksum) == Some(b) {
      assert (p + (ShaLine(checksum) + AfterEndsLine(rest)))[|p|..] == ShaLine(checksum) + AfterEndsLine(rest);
      assert (p + u)[|p|..] == u;
      assert u[|ShaLine(checksum)|..] == rest;
      assert (ShaLine(checksum) + AfterEndsLine(rest))[|ShaLine(checksum)|..] == AfterEndsLine(rest);
    }
  }

  lemma BreakKept(t: string)
    ensures EndsLine("\n" + t)
    ensures AfterEndsLine("\n" + t) == "\n" + t <==> !(SkipSpace(t) == "" || '\n' in LeadingSpace(t))
  {
    AfterBreak(t);
    var w, r := LeadingSpace(t), SkipSpace(t);
    assert ("\n" + t)[1..] == t && IsSpace('\n');
    assert LeadingSpace("\n" + t) == ['\n'] + w;
    assert (['\n'] + w)[1..] == w;
    if r != "" && '\n' !in w {
      assert "\n" + t == (['\n'] + w) + r;
    } else if r != "" {
      assert |LastBreak(['\n'] + w)| <= |w|;
    }
  }

  /** A block that a second edit leaves alone. */
  predicate Settled(block: string) {
    Find(block, Matcher(SHA, HexField)).Some? || !BlankAfterPath(block)
  }

  /** A second edit changes nothing, except when the first one inserted the digest in front of a
      blank line: the second then swallows that line. */
  lemma EditTwice(b: string, checksum: string)
    requires Editable(b) && Hex(checksum)
    ensures Edited(b, checksum).Some? && Edited(Edited(b, checksum).value, checksum).Some?
    ensures Edited(Edited(b, checksum).value, checksum) == Edited(b, checksum) <==> Settled(b)
  {
    if Find(b, Matcher(SHA, HexField)).Some? {
      var u, rest := ReplacedDigest(b, checksum);
      AgainAt(Edited(b, checksum).value, u, checksum, rest);
    } else {
      var u, rest := NewDigest(b, checksum);
      AgainAt(Edited(b, checksum).value, u, checksum, "\n" + rest);
      BreakKept(rest);
      assert ("\n" + rest)[1..] == rest;
    }
  }

  /** The edit raises exactly when there is nothing to edit. */
  lemma EditedExactly(b: string, checksum: string)
    ensures Edited(b, checksum).Some? <==> Editable(b)
  {}
}
