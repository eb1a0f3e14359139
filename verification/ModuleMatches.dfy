/** The searches of the script as regular expressions mean them: positions in the text, leftmost first. */
module ModuleMatches {
  import opened Text
  import opened LineSearch
  import opened ModuleFields
  import opened ModuleEdits

  // --- `^\s*X` ---

  predicate LineStart(t: string, p: nat) { p <= |t| && (p == 0 || t[p - 1] == '\n') }

  /** A match that starts at a position: a line starts there, and behind white space X matches. */
  predicate MatchAt(t: string, p: nat, m: string -> bool) {
    LineStart(t, p) && SkipSpace(t[p..]) != "" && m(SkipSpace(t[p..]))
  }

  /** The leftmost match. */
  ghost predicate Leftmost(t: string, p: nat, m: string -> bool) {
    MatchAt(t, p, m) && forall q: nat :: q < p ==> !MatchAt(t, q, m)
  }

  lemma {:induction false} SkipPart(t: string, p: nat)
    requires p <= |LeadingSpace(t)|
    ensures p <= |t| && SkipSpace(t[p..]) == SkipSpace(t)
  {
    assert t == LeadingSpace(t) + SkipSpace(t);
    if p > 0 {
      assert t[1..][p - 1..] == t[p..];
      SkipPart(t[1..], p - 1);
    }
  }

  /** No line starts inside the first line. */
  lemma FirstLineWhole(u: string, p: nat)
    requires 0 < p <= |u| && u[p - 1] == '\n'
    ensures p >= |FirstLine(u)| && '\n' in u
  {
    var l := FirstLine(u);
    assert u == l + NextLine(u);
    assert forall i :: 0 <= i < |l| - 1 ==> u[i] == l[i] && l[i] == l[..|l| - 1][i];
  }

  /** The search finds the leftmost match, if there is one. */
  lemma {:induction false} FindMeans(t: string, m: string -> bool)
    ensures Find(t, m).None? ==> forall p: nat :: !MatchAt(t, p, m)
    ensures Find(t, m).Some? ==>
              var h := Find(t, m).value;
              Leftmost(t, |h.before|, m) && HitAt(t, h)
    decreases |t|
  {
    hide MatchAt, SkipSpace, LeadingSpace, FirstLine, NextLine, Find, HitAt;
    var u := SkipSpace(t);
    if u == "" {
      NoText(t, m);
    } else if m(u) {
      MatchNow(t, m);
    } else {
      var lead, rest := LeadingSpace(t) + FirstLine(u), NextLine(u);
      LineSplits(t);
      RestIsShorter(t);
      FindMeans(rest, m);
      forall p: nat ensures MatchAt(t, p, m) ==> p >= |lead| && MatchAt(rest, p - |lead|, m) { NotBefore(t, p, m); }
      if Find(rest, m).Some? {
        var h := Find(rest, m).value;
        NonEmptyFound(rest, m);
        LineEnd(t, lead, rest);
        FindStep(t, m);
        LeftmostLater(t, lead, rest, |h.before|, m);
        HitLater(t, lead, rest, h);
      } else {
        NotFound(t, m);
      }
    }
  }

  lemma RestIsShorter(t: string)
    requires SkipSpace(t) != ""
    ensures |NextLine(SkipSpace(t))| < |t|
  {
    LineSplits(t);
  }

  lemma NoText(t: string, m: string -> bool)
    requires SkipSpace(t) == ""
    ensures Find(t, m).None? && forall p: nat :: !MatchAt(t, p, m)
  {
    forall p: nat ensures !MatchAt(t, p, m) {
      if p <= |t| {
        assert t == LeadingSpace(t);
        SkipPart(t, p);
      }
    }
  }

  lemma MatchNow(t: string, m: string -> bool)
    requires SkipSpace(t) != "" && m(SkipSpace(t))
    ensures Find(t, m).Some? && Find(t, m).value.before == "" && Leftmost(t, 0, m) && HitAt(t, Find(t, m).value)
  {
    assert t[0..] == t && t[..0] == "";
    hide SkipSpace, LeadingSpace;
  }

  lemma NotFound(t: string, m: string -> bool)
    requires SkipSpace(t) != "" && !m(SkipSpace(t)) && Find(NextLine(SkipSpace(t)), m).None?
    ensures Find(t, m).None?
  {
    hide SkipSpace, NextLine;
  }

  /** Without a match on the first line with text, every match is behind that line. */
  lemma NotBefore(t: string, p: nat, m: string -> bool)
    requires SkipSpace(t) != "" && !m(SkipSpace(t))
    ensures var lead := LeadingSpace(t) + FirstLine(SkipSpace(t));
            MatchAt(t, p, m) ==> p >= |lead| && MatchAt(NextLine(SkipSpace(t)), p - |lead|, m)
  {
    hide SkipSpace, LeadingSpace, FirstLine, NextLine;
    var u := SkipSpace(t);
    var w := LeadingSpace(t);
    LineSplits(t);
    if MatchAt(t, p, m) {
      if p <= |w| {
        SkipPart(t, p);
      } else {
        assert t == w + u && t[p - 1] == u[p - |w| - 1];
        FirstLineWhole(u, p - |w|);
        Behind(t, w + FirstLine(u), NextLine(u), p, m);
      }
    }
  }

  lemma Behind(t: string, lead: string, rest: string, p: nat, m: string -> bool)
    requires t == lead + rest && |lead| <= p && MatchAt(t, p, m)
    ensures MatchAt(rest, p - |lead|, m)
  {
    hide SkipSpace;
    var q := p - |lead|;
    assert t[p..] == rest[q..];
    assert q > 0 ==> t[p - 1] == rest[q - 1];
  }

  lemma Ahead(t: string, lead: string, rest: string, q: nat, m: string -> bool)
    requires t == lead + rest && lead != "" && lead[|lead| - 1] == '\n' && MatchAt(rest, q, m)
    ensures MatchAt(t, |lead| + q, m)
  {
    hide SkipSpace;
    var p := |lead| + q;
    assert t[p..] == rest[q..];
    assert t[p - 1] == if q > 0 then rest[q - 1] else lead[|lead| - 1];
  }

  lemma LeftmostLater(t: string, lead: string, rest: string, k: nat, m: string -> bool)
    requires t == lead + rest && lead != "" && lead[|lead| - 1] == '\n' && Leftmost(rest, k, m)
    requires forall p: nat :: MatchAt(t, p, m) ==> p >= |lead| && MatchAt(rest, p - |lead|, m)
    ensures Leftmost(t, |lead| + k, m)
  {
    hide MatchAt;
    Ahead(t, lead, rest, k, m);
    forall q: nat | q < |lead| + k ensures !MatchAt(t, q, m) {
      if q >= |lead| { assert !MatchAt(rest, q - |lead|, m); }
    }
  }

  predicate HitAt(t: string, h: Hit) {
    && |h.before| <= |t| && h.before == t[..|h.before|]
    && h.indent == LeadingSpace(t[|h.before|..]) && h.at == SkipSpace(t[|h.before|..])
  }

  lemma HitLater(t: string, lead: string, rest: string, h: Hit)
    requires t == lead + rest && HitAt(rest, h)
    ensures HitAt(t, h.(before := lead + h.before))
  {
    hide SkipSpace, LeadingSpace;
    var n := |lead| + |h.before|;
    assert t[..n] == lead + h.before && t[n..] == rest[|h.before|..];
  }

  lemma NonEmptyFound(t: string, m: string -> bool)
    requires Find(t, m).Some?
    ensures t != ""
  {}

  lemma FindStep(t: string, m: string -> bool)
    requires SkipSpace(t) != "" && !m(SkipSpace(t)) && Find(NextLine(SkipSpace(t)), m).Some?
    ensures var h := Find(NextLine(SkipSpace(t)), m).value;
            Find(t, m) == Some(h.(before := LeadingSpace(t) + FirstLine(SkipSpace(t)) + h.before))
  {
    hide SkipSpace, LeadingSpace, FirstLine, NextLine;
  }

  /** The lines before a later match end with a line break. */
  lemma LineEnd(t: string, lead: string, rest: string)
    requires lead == LeadingSpace(t) + FirstLine(SkipSpace(t)) && rest == NextLine(SkipSpace(t))
    requires SkipSpace(t) != "" && rest != ""
    ensures lead != "" && lead[|lead| - 1] == '\n'
  {
    var u := SkipSpace(t);
    assert '\n' in u;
    var l := FirstLine(u);
    assert lead[|lead| - 1] == l[|l| - 1];
  }

  // --- one field ---

  /** `field\s*=\s*"([^"]+)",` matches at the start of a text, with this value, and this text behind it. */
  ghost predicate FieldAt(u: string, field: string, value: string, after: string) {
    exists w1, w2 :: && AllSpace(w1) && AllSpace(w2) && value != "" && '"' !in value
                     && u == field + (w1 + ("=" + (w2 + ("\"" + (value + ("\"," + after))))))
  }

  lemma ReadMeans(u: string, field: string, value: string, after: string)
    ensures ReadField(u, field) == Read(value, after) <==> FieldAt(u, field, value, after)
  {
    hide ReadField;
    if ReadField(u, field) == Read(value, after) {
      var w1, w2 := ReadSplits(u, field);
    }
    if FieldAt(u, field, value, after) {
      var w1, w2 :| && AllSpace(w1) && AllSpace(w2) && value != "" && '"' !in value
                    && u == field + (w1 + ("=" + (w2 + ("\"" + (value + ("\"," + after))))));
      ReadPieces(u, field, w1, w2, value, after);
    }
  }

  /** A position that `\s*$` can reach: a line end with nothing but white space before it. */
  predicate SpaceTo(after: string, k: nat) {
    k <= |after| && AllSpace(after[..k]) && (k == |after| || after[k] == '\n')
  }

  /** `\s*$` matches exactly if it can reach a line end, and it takes the last one. */
  lemma EndsLineMeans(after: string)
    ensures EndsLine(after) <==> exists k: nat :: SpaceTo(after, k)
    ensures EndsLine(after) ==>
              var k := |after| - |AfterEndsLine(after)|;
              k >= 0 && SpaceTo(after, k) && after[k..] == AfterEndsLine(after) && forall j: nat :: j > k ==> !SpaceTo(after, j)
  {
    var w, t := LeadingSpace(after), SkipSpace(after);
    assert after == w + t;
    if EndsLine(after) { TakesLast(after); }
    if k: nat :| SpaceTo(after, k) {
      if t != "" { SpaceWithin(after, k); }
    }
  }

  /** White space at the beginning lies within the leading white space. */
  lemma SpaceWithin(after: string, k: nat)
    requires SpaceTo(after, k) && SkipSpace(after) != ""
    ensures k < |LeadingSpace(after)| && LeadingSpace(after)[k] == '\n'
  {
    var w, t := LeadingSpace(after), SkipSpace(after);
    assert after == w + t && after[|w|] == t[0];
    forall i | 0 <= i < k ensures IsSpace(after[i]) { assert after[..k][i] == after[i]; }
    assert !IsSpace(t[0]) && t[0] != '\n';
    assert after[k] == w[k];
  }

  lemma TakesLast(after: string)
    requires EndsLine(after)
    ensures var k := |after| - |AfterEndsLine(after)|;
            k >= 0 && SpaceTo(after, k) && after[k..] == AfterEndsLine(after) && forall j: nat :: j > k ==> !SpaceTo(after, j)
  {
    var w, t := LeadingSpace(after), SkipSpace(after);
    assert after == w + t;
    if t == "" {
      assert after == w && after[..|after|] == after && after[|after|..] == "";
    } else {
      var last := LastBreak(w);
      var k := |w| - |last|;
      assert last == w[k..] && after[k] == w[k] == last[0];
      assert after[k..] == last + t;
      assert forall i :: 0 <= i < k ==> after[..k][i] == w[i];
      assert forall i :: k < i < |w| ==> w[i] == last[i - k] && last[i - k] == last[1..][i - k - 1];
      forall j: nat | j > k ensures !SpaceTo(after, j) {
        if SpaceTo(after, j) {
          SpaceWithin(after, j);
        }
      }
    }
  }

  /** What the three expressions match. */
  lemma MatcherMeans(field: string, u: string)
    ensures Matcher(field, StringField)(u)
       <==> exists v, after :: FieldAt(u, field, v, after) && exists k: nat :: SpaceTo(after, k)
    ensures Matcher(field, HexField)(u)
       <==> exists v, after :: FieldAt(u, field, v, after) && LowerHex(v) && exists k: nat :: SpaceTo(after, k)
    ensures Matcher(field, LineField)(u) <==> exists v, after :: FieldAt(u, field, v, "\n" + after)
  {
    hide ReadField, FieldAt, SpaceTo, EndsLine;
    var p := ReadField(u, field);
    if p.Read? {
      ReadMeans(u, field, p.value, p.after);
      EndsLineMeans(p.after);
      HexMeans(p.value);
      if p.after != "" && p.after[0] == '\n' { assert p.after == "\n" + p.after[1..]; }
    }
    forall v, after ensures FieldAt(u, field, v, after) <==> p == Read(v, after) { ReadMeans(u, field, v, after); }
  }

  /** `[0-9a-f]+` */
  predicate LowerHex(v: string) {
    v != "" && forall i :: 0 <= i < |v| ==> v[i] in "0123456789abcdef"
  }

  lemma HexMeans(v: string)
    ensures Hex(v) <==> LowerHex(v)
  {
    forall c: char ensures IsHexDigit(c) <==> c in "0123456789abcdef" { HexDigitMeans(c); }
  }

  lemma HexDigitMeans(c: char)
    ensures IsHexDigit(c) <==> c in "0123456789abcdef"
  {
    var s := "0123456789abcdef";
    if IsHexDigit(c) {
      var k := if IsDigit(c) then c as int - '0' as int else 10 + (c as int - 'a' as int);
      assert 0 <= k < 16 && s[k] == c;
    }
  }

  /** `string_field`: the value of the leftmost match, and none without a match. */
  lemma StringFieldMeans(block: string, field: string)
    ensures StringValue(block, field).None? <==> forall p: nat :: !MatchAt(block, p, Matcher(field, StringField))
    ensures forall v :: StringValue(block, field) == Some(v)
              <==> exists p: nat :: Leftmost(block, p, Matcher(field, StringField))
                     && exists after :: FieldAt(SkipSpace(block[p..]), field, v, after)
  {
    hide ReadField, FieldAt, MatchAt, Find, SkipSpace;
    var m := Matcher(field, StringField);
    FindMeans(block, m);
    if Find(block, m).Some? {
      var h := Find(block, m).value;
      FindSplits(block, m);
      var r := ReadField(h.at, field);
      assert m(h.at) && r.Read?;
      ReadMeans(h.at, field, r.value, r.after);
      forall v, after ensures FieldAt(h.at, field, v, after) <==> r == Read(v, after) { ReadMeans(h.at, field, v, after); }
      forall p: nat | Leftmost(block, p, m) ensures p == |h.before| { OneLeftmost(block, p, |h.before|, m); }
      assert StringValue(block, field) == Some(r.value);
      assert Leftmost(block, |h.before|, m) && FieldAt(SkipSpace(block[|h.before|..]), field, r.value, r.after);
      forall v | StringValue(block, field) == Some(v)
        ensures exists p: nat :: Leftmost(block, p, m) && exists after :: FieldAt(SkipSpace(block[p..]), field, v, after)
      {
        assert v == r.value;
      }
    }
  }

  lemma OneLeftmost(t: string, p: nat, q: nat, m: string -> bool)
    requires Leftmost(t, p, m) && Leftmost(t, q, m)
    ensures p == q
  {
    hide MatchAt;
  }

  // --- `block_with_sha256` ---

  function DigestLine(checksum: string): string { "sha256 = \"" + checksum + "\"," }

  /** The digest that starts behind position `p` is replaced, with the white space behind it up to the last line end
      that it reaches. */
  ghost predicate ReplacedAt(b: string, p: nat, checksum: string, out: string)
    requires p <= |b|
  {
    exists v, after, k: nat ::
      && FieldAt(SkipSpace(b[p..]), "sha256", v, after) && LowerHex(v)
      && SpaceTo(after, k) && (forall j: nat :: j > k ==> !SpaceTo(after, j))
      && out == b[..p] + LeadingSpace(b[p..]) + DigestLine(checksum) + after[k..]
  }

  /** A digest line is inserted behind the path line, indented like it. */
  ghost predicate InsertedAt(b: string, p: nat, checksum: string, out: string)
    requires p <= |b|
  {
    exists v, rest ::
      && FieldAt(SkipSpace(b[p..]), "downloaded_file_path", v, "\n" + rest) && |rest| <= |b|
      && out == b[..|b| - |rest|] + (LeadingSpace(b[p..]) + DigestLine(checksum) + "\n" + rest)
  }

  const HEX_DIGEST := Matcher("sha256", HexField)
  const PATH_LINE := Matcher("downloaded_file_path", LineField)

  /** What the script makes of a block: the leftmost lower-case digest is replaced; without one a digest line follows
      the leftmost path line; without that it raises. */
  lemma EditMeans(b: string, checksum: string)
    ensures if exists p: nat :: MatchAt(b, p, HEX_DIGEST) then
              && Edited(b, checksum).Some?
              && exists p: nat :: Leftmost(b, p, HEX_DIGEST) && ReplacedAt(b, p, checksum, Edited(b, checksum).value)
            else if exists p: nat :: MatchAt(b, p, PATH_LINE) then
              && Edited(b, checksum).Some?
              && exists p: nat :: Leftmost(b, p, PATH_LINE) && InsertedAt(b, p, checksum, Edited(b, checksum).value)
            else Edited(b, checksum).None?
  {
    hide MatchAt, Find, ReplacedAt, InsertedAt, HitAt;
    FindMeans(b, HEX_DIGEST);
    FindMeans(b, PATH_LINE);
    if Find(b, HEX_DIGEST).Some? {
      Replacement(b, checksum);
    } else if Find(b, PATH_LINE).Some? {
      Inserting(b, checksum);
    }
  }

  lemma Replacement(b: string, checksum: string)
    requires Find(b, HEX_DIGEST).Some? && HitAt(b, Find(b, HEX_DIGEST).value)
    ensures Edited(b, checksum).Some?
    ensures ReplacedAt(b, |Find(b, HEX_DIGEST).value.before|, checksum, Edited(b, checksum).value)
  {
    hide ReadField, Find, FieldAt, SpaceTo, LeadingSpace, SkipSpace, EndsLine, AfterEndsLine;
    var h := Find(b, HEX_DIGEST).value;
    FindSplits(b, HEX_DIGEST);
    var r := ReadField(h.at, "sha256");
    assert HEX_DIGEST(h.at) && r.Read? && EndsLine(r.after) && Hex(r.value);
    ReadMeans(h.at, "sha256", r.value, r.after);
    EndsLineMeans(r.after);
    HexMeans(r.value);
    var k := |r.after| - |AfterEndsLine(r.after)|;
    SameLine(checksum);
    assert Edited(b, checksum).value == b[..|h.before|] + LeadingSpace(b[|h.before|..]) + DigestLine(checksum) + r.after[k..];
  }

  lemma SameLine(checksum: string)
    ensures ShaLine(checksum) == DigestLine(checksum)
  {
    assert SHA + " = \"" == "sha256 = \"";
  }

  lemma Inserting(b: string, checksum: string)
    requires Find(b, HEX_DIGEST).None? && Find(b, PATH_LINE).Some? && HitAt(b, Find(b, PATH_LINE).value)
    ensures Edited(b, checksum).Some?
    ensures InsertedAt(b, |Find(b, PATH_LINE).value.before|, checksum, Edited(b, checksum).value)
  {
    hide ReadField, Find, FieldAt, LeadingSpace, SkipSpace, ShaLine, DigestLine;
    var d := Find(b, PATH_LINE).value;
    FindSplits(b, PATH_LINE);
    var r := ReadField(d.at, "downloaded_file_path");
    assert PATH_LINE(d.at) && r.Read? && r.after != "" && r.after[0] == '\n';
    ReadSuffix(d.at, "downloaded_file_path");
    var rest := r.after[1..];
    assert r.after == "\n" + rest;
    ReadMeans(d.at, "downloaded_file_path", r.value, "\n" + rest);
    SameLine(checksum);
    var line := DigestLine(checksum);
    assert Edited(b, checksum).value
        == d.before + d.indent + d.at[..|d.at| - |rest|] + d.indent + line + "\n" + rest;
    InFront(b, d.before, d.indent, d.at, |rest|);
    assert d.before + d.indent + d.at[..|d.at| - |rest|] + d.indent + line + "\n" + rest
        == d.before + d.indent + d.at[..|d.at| - |rest|] + (d.indent + line + "\n" + rest);
    assert d.indent + (line + "\n" + rest) == d.indent + line + "\n" + rest;
  }

  lemma InFront(b: string, lines: string, w: string, s: string, n: nat)
    requires b == lines + w + s && n <= |s|
    ensures n <= |b| && lines + w + s[..|s| - n] == b[..|b| - n]
  {}
}
