/** `block_with_sha256` and what it does to the fields of a block. */
module ModuleEdits {
  import opened Text
  import opened LineSearch
  import opened ModuleFields
  import opened ModuleFrames

  const NAME := "name"
  const PATH := "downloaded_file_path"
  const SHA := "sha256"

  function ShaLine(checksum: string): string { SHA + " = \"" + checksum + "\"," }

  /** `block_with_sha256`: the block with its first lower-case digest replaced, or with a digest
      line inserted under the path; None where the script raises. */
  function Edited(block: string, checksum: string): (r: Option<string>) {
    match Find(block, Matcher(SHA, HexField))
    case Some(h) =>
      FindSplits(block, Matcher(SHA, HexField));
      Some(h.before + h.indent + ShaLine(checksum) + AfterEndsLine(ReadField(h.at, SHA).after))
    case None =>
      match Find(block, Matcher(PATH, LineField))
      case None => None
      case Some(d) =>
        FindSplits(block, Matcher(PATH, LineField));
        var rest := ReadField(d.at, PATH).after[1..];
        ReadSuffix(d.at, PATH);
        Some(d.before + d.indent + d.at[..|d.at| - |rest|]
             + d.indent + ShaLine(checksum) + "\n" + rest)
  }

  /** The pieces of the text an entry is read from. */
  ghost predicate Pieces(u: string, field: string, w1: string, w2: string, v: string, after: string) {
    && AllSpace(w1) && AllSpace(w2) && v != "" && '"' !in v
    && u == field + (w1 + ("=" + (w2 + ("\"" + (v + ("\"," + after))))))
  }

  lemma SkipPieces(w: string, c: char, t: string)
    requires AllSpace(w) && !IsSpace(c)
    ensures Expect(w + ([c] + t), c) == Some(t)
  {
    SkipAllSpace(w, [c] + t);
  }

  lemma ValuePieces(v: string, after: string)
    requires v != "" && '"' !in v
    ensures ReadValue(v + ("\"," + after)) == Read(v, after)
  {
    var t := v + ("\"," + after);
    UnquotedConcat(v, "\"," + after);
    Slices(v, "\"," + after, |v|);
  }

  lemma ReadPieces(u: string, field: string, w1: string, w2: string, v: string, after: string)
    requires Pieces(u, field, w1, w2, v, after)
    ensures ReadField(u, field) == Read(v, after)
  {
    ReadSteps(u, field);
    var t3 := v + ("\"," + after);
    var t2 := w2 + ("\"" + t3);
    var t1 := w1 + ("=" + t2);
    Slices(field, t1, |field|);
    SkipPieces(w1, '=', t2);
    SkipPieces(w2, '"', t3);
    ValuePieces(v, after);
  }

  lemma ExpectSplits(t: string, c: char)
    ensures match Expect(t, c)
            case None => true
            case Some(u) => AllSpace(LeadingSpace(t)) && t == LeadingSpace(t) + ([c] + u)
  {}

  lemma ValueSplits(t: string)
    ensures match ReadValue(t)
            case Unread => true
            case Read(v, after) => v != "" && '"' !in v && t == v + ("\"," + after)
  {
    var n := Unquoted(t);
    var c := t[n..];
    if ReadValue(t).Read? {
      assert c == "\"," + c[2..];
      assert t == t[..n] + c;
    }
  }

  lemma ReadSplits(u: string, field: string) returns (w1: string, w2: string)
    ensures match ReadField(u, field)
            case Unread => true
            case Read(v, after) => Pieces(u, field, w1, w2, v, after)
  {
    w1, w2 := "", "";
    ReadSteps(u, field);
    match ReadField(u, field)
    case Unread =>
    case Read(v, after) =>
      var t1 := u[|field|..];
      assert u == field + t1;
      ExpectSplits(t1, '=');
      var t2 := Expect(t1, '=').value;
      ExpectSplits(t2, '"');
      var t3 := Expect(t2, '"').value;
      ValueSplits(t3);
      w1, w2 := LeadingSpace(t1), LeadingSpace(t2);
  }

  lemma ReadSuffix(u: string, field: string)
    ensures var p := ReadField(u, field);
            p.Read? ==> |p.after| < |u| && u[|u| - |p.after|..] == p.after
  {
    if ReadField(u, field).Read? {
      var Read(v, after) := ReadField(u, field);
      var w1, w2 := ReadSplits(u, field);
      PiecesEnd(field, w1, w2, v, after);
    }
  }

  lemma PiecesEnd(f: string, w1: string, w2: string, v: string, after: string)
    ensures var u := f + (w1 + ("=" + (w2 + ("\"" + (v + ("\"," + after))))));
            |after| < |u| && u[|u| - |after|..] == after
  {}

  /** Where the first quote of an entry is, and what follows it. */
  lemma PiecesInert(u: string, field: string, w1: string, w2: string, v: string, after: string)
    requires Pieces(u, field, w1, w2, v, after)
    requires Word(field) && NoSpace(v)
    ensures Inert(u)
  {
    var head := field + w1 + "=" + w2;
    assert '"' !in head;
    var t := v + ("\"," + after);
    assert u == head + "\"" + t;
    UnquotedIs(head, t);
    assert u[0] == field[0];
    var c := u[Unquoted(u)..];
    assert c == "\"" + t;
    assert c[1] == v[0];
    if |v| > 1 { assert c[2] == v[1]; } else { assert c[2] == '"'; }
  }

  /** A field name: no space, `=` or quote in it. */
  ghost predicate Word(f: string) { f != "" && NoSpace(f) && '=' !in f && '"' !in f }

  /** A search that never matches at `=` or at a quote. */
  ghost predicate WordSearch(m: string -> bool) {
    forall y :: m(y) ==> y != "" && y[0] != '=' && y[0] != '"'
  }

  lemma FieldSearchesWord(field: string, pattern: Pattern)
    requires Word(field)
    ensures WordSearch(Matcher(field, pattern))
  {
    forall y | Matcher(field, pattern)(y) ensures y != "" && y[0] == field[0] {
      ReadSteps(y, field);
    }
  }

  /** An entry of one field is not an entry of another. */
  lemma OtherField(u: string, field: string, w1: string, w2: string, v: string, after: string,
                   other: string)
    requires Pieces(u, field, w1, w2, v, after) && Word(field) && Word(other) && other != field
    ensures ReadField(u, other).Unread?
  {
    ReadSteps(u, other);
    var t := w1 + ("=" + (w2 + ("\"" + (v + ("\"," + after)))));
    assert u == field + t;
    assert t[0] == if w1 == "" then '=' else w1[0];
    assert u[|field|] == t[0] && u[..|field|] == field;
    if other <= u {
      assert |other| < |field|;
      Slices(field, t, |other|);
      assert u[|other|..][0] == field[|other|];
    }
  }

  lemma HeadSearch(h: string, w: string, y: string, m: string -> bool)
    requires '\n' !in h && AllSpace(w) && y != "" && !IsSpace(y[0]) && !m(y)
    ensures At(Find(NextLine(h + (w + y)), m)) == At(Find(NextLine(y), m))
  {
    NextLineConcat(h, w + y);
    NextLineConcat(w, y);
    assert w == FirstLine(w) + NextLine(w);
    if '\n' in w {
      var w' := NextLine(w);
      SpaceSuffix(FirstLine(w), w');
      SearchSpace(w', y, m);
      SearchSkips(y, m);
    }
  }

  lemma TailSearch(h: string, after: string, m: string -> bool)
    requires '\n' !in h && EndsLine(after)
    ensures At(Find(NextLine(h + after), m)) == At(Find(SkipSpace(after), m))
  {
    var w, t := LeadingSpace(after), SkipSpace(after);
    NextLineConcat(h, after);
    NextLineConcat(w, t);
    if '\n' in w {
      var w' := NextLine(w);
      SpaceSuffix(FirstLine(w), w');
      SearchSpace(w', t, m);
    }
  }

  /** A search for something else passes over a whole entry. */
  lemma EntrySearch(u: string, field: string, w1: string, w2: string, v: string, after: string,
                    m: string -> bool)
    requires Pieces(u, field, w1, w2, v, after) && '\n' !in v && EndsLine(after)
    requires Word(field) && WordSearch(m) && !m(u)
    ensures At(Find(u, m)) == At(Find(SkipSpace(after), m))
  {
    var q := "\"" + (v + ("\"," + after));
    var e := "=" + (w2 + q);
    NoBreak(field);
    assert field + (w1 + e) == u;
    assert u[0] == field[0] && e[0] == '=' && q[0] == '"';
    NotAt(e, m);
    NotAt(q, m);
    SearchSkips(u, m);
    HeadSearch(field, w1, e, m);
    HeadSearch("=", w2, q, m);
    QuotedText(v, after);
    TailSearch("\"" + v + "\",", after, m);
  }

  lemma NotAt(y: string, m: string -> bool)
    requires WordSearch(m) && y != "" && (y[0] == '=' || y[0] == '"')
    ensures !m(y)
  {}

  lemma NoBreak(t: string)
    requires NoSpace(t)
    ensures '\n' !in t
  {
    assert IsSpace('\n');
  }

  lemma QuotedText(v: string, after: string)
    requires '\n' !in v
    ensures "\"" + (v + ("\"," + after)) == ("\"" + v + "\",") + after
    ensures '\n' !in "\"" + v + "\","
  {}

  /** When the first match of a wider search also matches a narrower one, both find it. */
  lemma {:induction false} FindNarrower(t: string, m: string -> bool, wide: string -> bool)
    requires forall y :: m(y) ==> wide(y)
    requires Find(t, wide).Some? ==> m(Find(t, wide).value.at)
    ensures At(Find(t, m)) == At(Find(t, wide))
    decreases |t|
  {
    var u := SkipSpace(t);
    assert t == LeadingSpace(t) + u;
    if u != "" && !wide(u) {
      assert u == FirstLine(u) + NextLine(u);
      FindNarrower(NextLine(u), m, wide);
    }
  }
}
