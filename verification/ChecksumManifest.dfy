/** `parse_checksum_manifest`: the lines `<sha256>  <filename>` of a manifest as a table. */
module ChecksumManifest {
  import opened Text

  datatype Fault = BadShape | BadDigest | NotBare | Duplicate

  datatype ManifestError = BadLine(fault: Fault, number: nat) | Empty

  /** The longest prefix without white space. */
  function Token(t: string): (w: string)
    ensures NoSpace(w) && w <= t
    ensures t != "" && !IsSpace(t[0]) ==> w != ""
  {
    if t == "" || IsSpace(t[0]) then "" else [t[0]] + Token(t[1..])
  }

  /** `str.split()` */
  function Split(t: string): (words: seq<string>)
    decreases |t|
    ensures forall i :: 0 <= i < |words| ==> words[i] != "" && NoSpace(words[i])
  {
    var u := SkipSpace(t);
    if u == "" then [] else
      var w := Token(u);
      [w] + Split(u[|w|..])
  }

  /** `[0-9a-f]{64}` */
  predicate Digest(t: string) { |t| == 64 && Hex(t) }

  predicate Bare(filename: string) { filename != "." && filename != ".." && '/' !in filename }

  predicate WellFormed(line: string) {
    var parts := Split(line);
    |parts| == 2 && Digest(parts[0]) && Bare(parts[1])
  }

  /** What one line says, after the checks of the script in their order. */
  datatype Reading = Skip | Pair(digest: string, filename: string) | Bad(fault: Fault)

  function ReadLine(line: string): (r: Reading)
    ensures r.Skip? <==> Blank(line)
    ensures r.Pair? <==> !Blank(line) && WellFormed(line)
    ensures r.Pair? ==> Split(line) == [r.digest, r.filename]
  {
    if Blank(line) then Skip else
      var parts := Split(line);
      if |parts| != 2 then Bad(BadShape)
      else if !Digest(parts[0]) then Bad(BadDigest)
      else if !Bare(parts[1]) then Bad(NotBare)
      else Pair(parts[0], parts[1])
  }

  // --- what a line says ---

  /** Words between stretches of white space. */
  ghost predicate Words(t: string, ws: seq<string>)
    decreases |ws|
  {
    if ws == [] then AllSpace(t)
    else
      exists s, rest :: && t == s + (ws[0] + rest) && AllSpace(s) && ws[0] != "" && NoSpace(ws[0])
                        && (rest == "" || IsSpace(rest[0])) && Words(rest, ws[1..])
  }

  lemma {:induction false} TokenIs(a: string, rest: string)
    requires NoSpace(a) && (rest == "" || IsSpace(rest[0]))
    ensures Token(a + rest) == a
  {
    if a == "" {
      assert a + rest == rest;
    } else {
      assert (a + rest)[1..] == a[1..] + rest;
      TokenIs(a[1..], rest);
    }
  }

  lemma {:induction false} TokenEnds(t: string)
    ensures |Token(t)| < |t| ==> IsSpace(t[|Token(t)|])
  {
    if t != "" && !IsSpace(t[0]) { TokenEnds(t[1..]); }
  }

  lemma {:induction false} AllSkipped(t: string)
    ensures AllSpace(t) <==> SkipSpace(t) == ""
  {
    assert t == LeadingSpace(t) + SkipSpace(t);
    if AllSpace(t) { SkipAllSpace(t, ""); }
  }

  lemma SplitWord(s: string, a: string, rest: string)
    requires AllSpace(s) && a != "" && NoSpace(a) && (rest == "" || IsSpace(rest[0]))
    ensures Split(s + (a + rest)) == [a] + Split(rest)
  {
    var u := a + rest;
    SkipAllSpace(s, u);
    assert u[0] == a[0];
    assert SkipSpace(u) == u;
    TokenIs(a, rest);
    assert u[|a|..] == rest;
  }

  /** `str.split()` gives the words. */
  lemma SplitMeans(t: string, ws: seq<string>)
    ensures Split(t) == ws <==> Words(t, ws)
  {
    hide Split, Words;
    SplitGivesWords(t);
    if Words(t, ws) { WordsAreSplit(t, ws); }
  }

  lemma {:induction false} SplitGivesWords(t: string)
    ensures Words(t, Split(t))
    decreases |t|
  {
    hide Words;
    AllSkipped(t);
    var u := SkipSpace(t);
    if u == "" {
      NoWords(t);
    } else {
      var a := Token(u);
      TokenEnds(u);
      var rest := u[|a|..];
      assert u == a + rest;
      assert rest != "" ==> rest[0] == u[|a|];
      SplitGivesWords(rest);
      OneWord(t, LeadingSpace(t), a, rest, Split(rest));
    }
  }

  lemma NoWords(t: string)
    requires AllSpace(t)
    ensures Words(t, [])
  {}

  lemma OneWord(t: string, s: string, a: string, rest: string, ws: seq<string>)
    requires t == s + (a + rest) && AllSpace(s) && a != "" && NoSpace(a) && (rest == "" || IsSpace(rest[0]))
    requires Words(rest, ws)
    ensures Words(t, [a] + ws)
  {
    assert ([a] + ws)[0] == a && ([a] + ws)[1..] == ws;
  }

  lemma {:induction false} WordsAreSplit(t: string, ws: seq<string>)
    requires Words(t, ws)
    ensures Split(t) == ws
    decreases |ws|
  {
    hide Split;
    if ws == [] {
      AllSkipped(t);
      NoneSplit(t);
    } else {
      var s, rest :| && t == s + (ws[0] + rest) && AllSpace(s) && ws[0] != "" && NoSpace(ws[0])
                     && (rest == "" || IsSpace(rest[0])) && Words(rest, ws[1..]);
      SplitWord(s, ws[0], rest);
      WordsAreSplit(rest, ws[1..]);
      assert ws == [ws[0]] + ws[1..];
    }
  }

  lemma NoneSplit(t: string)
    requires SkipSpace(t) == ""
    ensures Split(t) == []
  {}

  /** Sixty-four lower-case hexadecimal digits. */
  predicate Sha256(d: string) { |d| == 64 && forall i :: 0 <= i < 64 ==> '0' <= d[i] <= '9' || 'a' <= d[i] <= 'f' }

  predicate FileName(f: string) { f != "." && f != ".." && forall i :: 0 <= i < |f| ==> f[i] != '/' }

  /** What each line says: nothing, a digest and a bare file name, or what is wrong with it. */
  lemma LineMeans(line: string)
    ensures ReadLine(line) == Skip <==> Words(line, [])
    ensures forall d, f :: ReadLine(line) == Pair(d, f) <==> Words(line, [d, f]) && Sha256(d) && FileName(f)
    ensures ReadLine(line) == Bad(BadDigest) <==> exists d, f :: Words(line, [d, f]) && !Sha256(d)
    ensures ReadLine(line) == Bad(NotBare) <==> exists d, f :: Words(line, [d, f]) && Sha256(d) && !FileName(f)
    ensures ReadLine(line) == Bad(BadShape) <==> !Words(line, []) && forall d, f :: !Words(line, [d, f])
  {
    hide Split, Words, Hex;
    BlankMeans(line);
    SplitMeans(line, []);
    forall d, f ensures Split(line) == [d, f] <==> Words(line, [d, f]) { SplitMeans(line, [d, f]); }
    forall d ensures Digest(d) <==> Sha256(d) { DigestMeans(d); }
    var parts := Split(line);
    if |parts| == 2 { assert parts == [parts[0], parts[1]]; }
    hide Digest, Sha256;
  }

  lemma DigestMeans(d: string)
    ensures Digest(d) <==> Sha256(d)
  {}

  lemma BlankMeans(line: string)
    ensures Blank(line) <==> Split(line) == []
  {
    AllSkipped(line);
    var u := SkipSpace(line);
    if u != "" { NotTrimmed(u); }
  }

  lemma {:induction false} NotTrimmed(u: string)
    requires u != "" && !IsSpace(u[0])
    ensures TrimEnd(u) != ""
  {
    if IsSpace(u[|u| - 1]) { NotTrimmed(u[..|u| - 1]); }
  }

  // --- the table ---

  ghost predicate Listed(lines: seq<string>, filename: string, read: string -> Reading) {
    exists j :: 0 <= j < |lines| && read(lines[j]).Pair? && read(lines[j]).filename == filename
  }

  /** Line `i` is acceptable after the lines before it. */
  ghost predicate GoodLine(lines: seq<string>, i: nat, read: string -> Reading)
    requires i < |lines|
  {
    match read(lines[i])
    case Skip => true
    case Bad(_) => false
    case Pair(_, filename) => !Listed(lines[..i], filename, read)
  }

  /** The table holds exactly what the lines say. */
  ghost predicate TableOf(lines: seq<string>, table: map<string, string>, read: string -> Reading) {
    && (forall p :: p in table <==> Listed(lines, p, read))
    && (forall i :: 0 <= i < |lines| && read(lines[i]).Pair? ==>
          Pair(table[read(lines[i]).filename], read(lines[i]).filename) == read(lines[i]))
  }

  /** Digests and file names as the parser lets them through. */
  predicate ManifestOk(checksums: map<string, string>) {
    forall p :: p in checksums ==> Hex(checksums[p]) && NoSpace(p)
  }

  /** Line `i` is bad and the lines before it are good. */
  ghost predicate FirstBad(lines: seq<string>, i: int, read: string -> Reading) {
    && 0 <= i < |lines| && !GoodLine(lines, i, read)
    && forall j :: 0 <= j < i ==> GoodLine(lines, j, read)
  }

  /** A good manifest has good lines only, and not only blank ones. */
  ghost predicate GoodManifest(lines: seq<string>, read: string -> Reading) {
    && (forall i :: 0 <= i < |lines| ==> GoodLine(lines, i, read))
    && (exists i :: 0 <= i < |lines| && !read(lines[i]).Skip?)
  }

  /** What is wrong with a bad line: its own fault, or a file name that was there before. */
  function FaultOf(line: Reading): Fault { if line.Bad? then line.fault else Duplicate }

  method BuildTable(lines: seq<string>, read: string -> Reading)
    returns (r: Result<map<string, string>, ManifestError>)
    ensures r.Ok? <==> GoodManifest(lines, read)
    ensures r.Ok? ==> TableOf(lines, r.value, read) && r.value != map[]
    ensures r.Err? && r.error.BadLine? ==>
              && FirstBad(lines, r.error.number - 1, read)
              && r.error.fault == FaultOf(read(lines[r.error.number - 1]))
    ensures r.Err? && r.error.Empty? ==> forall i :: 0 <= i < |lines| ==> read(lines[i]).Skip?
  {
    var table: map<string, string> := map[];
    for i := 0 to |lines|
      invariant forall j :: 0 <= j < i ==> GoodLine(lines, j, read)
      invariant TableOf(lines[..i], table, read)
      invariant table == map[] <==> forall j :: 0 <= j < i ==> read(lines[j]).Skip?
    {
      assert lines[..i + 1] == lines[..i] + [lines[i]];
      var line := read(lines[i]);
      if line.Bad? {
        assert FirstBad(lines, i, read);
        return Err(BadLine(line.fault, i + 1));
      }
      AddLine(lines[..i], lines[i], table, read);
      if line.Pair? {
        if line.filename in table {
          assert FirstBad(lines, i, read);
          return Err(BadLine(Duplicate, i + 1));
        }
        table := table[line.filename := line.digest];
      }
    }
    assert lines[..|lines|] == lines;
    if table == map[] { return Err(Empty); }
    return Ok(table);
  }

  lemma AddLine(lines: seq<string>, line: string, table: map<string, string>, read: string -> Reading)
    requires TableOf(lines, table, read)
    ensures read(line).Skip? ==> TableOf(lines + [line], table, read)
    ensures read(line).Pair? && read(line).filename !in table ==>
      TableOf(lines + [line], table[read(line).filename := read(line).digest], read)
  {
    var more := lines + [line];
    forall p | Listed(lines, p, read) ensures Listed(more, p, read) {
      var j :| 0 <= j < |lines| && read(lines[j]).Pair? && read(lines[j]).filename == p;
      assert more[j] == lines[j];
    }
    forall p | Listed(more, p, read)
      ensures Listed(lines, p, read) || (read(line).Pair? && p == read(line).filename)
    {
      var j :| 0 <= j < |more| && read(more[j]).Pair? && read(more[j]).filename == p;
      if j < |lines| { assert more[j] == lines[j]; }
    }
    assert more[|lines|] == line;
    assert read(line).Pair? ==> Listed(more, read(line).filename, read);
    forall i | 0 <= i < |lines| && read(lines[i]).Pair? ensures Listed(lines, read(lines[i]).filename, read) {}
  }

  /** `parse_checksum_manifest` accepts exactly the good manifests and reads them as they stand;
      otherwise it names the first bad line. */
  method ParseChecksumManifest(lines: seq<string>) returns (r: Result<map<string, string>, ManifestError>)
    ensures r.Ok? <==> GoodManifest(lines, ReadLine)
    ensures r.Ok? ==> TableOf(lines, r.value, ReadLine) && r.value != map[] && ManifestOk(r.value)
    ensures r.Err? && r.error.BadLine? ==>
              && FirstBad(lines, r.error.number - 1, ReadLine)
              && r.error.fault == FaultOf(ReadLine(lines[r.error.number - 1]))
    ensures r.Err? && r.error.Empty? ==> forall i :: 0 <= i < |lines| ==> ReadLine(lines[i]).Skip?
  {
    r := BuildTable(lines, ReadLine);
    if r.Ok? { TableManifest(lines, r.value); }
  }

  lemma TableManifest(lines: seq<string>, table: map<string, string>)
    requires TableOf(lines, table, ReadLine)
    ensures ManifestOk(table)
  {
    forall p | p in table ensures Hex(table[p]) && NoSpace(p) {
      var j :| 0 <= j < |lines| && ReadLine(lines[j]).Pair? && ReadLine(lines[j]).filename == p;
      assert Split(lines[j])[0] == table[p] && Split(lines[j])[1] == p;
    }
  }
}
