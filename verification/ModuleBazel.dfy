/** `rusty_v8_module_bazel.py`: updating and checking the digests of one version's `http_file`
    entries in a MODULE.bazel text. */
module ModuleBazel {
  import opened Text
  import opened LineSearch
  import opened ModuleFields
  import opened ModuleEdits
  import opened ModuleEditProofs
  import opened ModuleBlocks
  import opened ModuleScan

  type Checksums = map<string, string>

  datatype Entry = Entry(start: nat, end: nat, block: string, name: string, path: string,
                         sha256: Option<string>)

  datatype Error =
    | MissingPath(name: string)
    | NoEntries
    | DuplicatePath(path: string)
    | NotInManifest(name: string)
    | NotInModule(path: string)
    | MissingDigest(name: string)
    | WrongDigest(name: string, got: string, expected: string)
    | NoPathLine

  /** `version.replace(".", "_")` */
  function Slug(version: string): string {
    seq(|version|, i requires 0 <= i < |version| => if version[i] == '.' then '_' else version[i])
  }

  predicate Selected(block: string, version: string) {
    match StringValue(block, NAME)
    case None => false
    case Some(name) => "rusty_v8_" + Slug(version) + "_" <= name
  }

  /** What one block of the text contributes. */
  datatype Found = Skipped | Bad(error: Error) | Good(entry: Entry)

  function EntryAt(block: string, start: nat, version: string): Found {
    if !Selected(block, version) then Skipped else
      var name := StringValue(block, NAME).value;
      match StringValue(block, PATH)
      case None => Bad(MissingPath(name))
      case Some(path) => Good(Entry(start, start + |block|, block, name, path, StringValue(block, SHA)))
  }

  function Reader(version: string): (string, nat) -> Found {
    (block: string, start: nat) => EntryAt(block, start, version)
  }

  function Prepend(es: seq<Entry>, r: Result<seq<Entry>, Error>): Result<seq<Entry>, Error> {
    match r case Err(e) => Err(e) case Ok(more) => Ok(es + more)
  }

  /** The entries of the selected blocks, with their offsets when the segments start at `base`. */
  function EntriesFrom(segs: seq<Segment>, base: nat, read: (string, nat) -> Found)
    : Result<seq<Entry>, Error>
  {
    if segs == [] then Ok([]) else
      var later := EntriesFrom(segs[1..], base + |segs[0].text|, read);
      if segs[0].Plain? then later else
        match read(segs[0].text, base)
        case Skipped => later
        case Bad(e) => Err(e)
        case Good(entry) => Prepend([entry], later)
  }

  lemma PrependTwice(es: seq<Entry>, entry: Entry, r: Result<seq<Entry>, Error>)
    ensures Prepend(es, Prepend([entry], r)) == Prepend(es + [entry], r)
  {
    if r.Ok? { Assoc(es, [entry], r.value); }
  }

  lemma PrependNone(r: Result<seq<Entry>, Error>)
    ensures Prepend([], r) == r
  {
    if r.Ok? { assert [] + r.value == r.value; }
  }

  method CollectEntries(segs: seq<Segment>, read: (string, nat) -> Found)
    returns (r: Result<seq<Entry>, Error>)
    ensures r == EntriesFrom(segs, 0, read)
  {
    var entries: seq<Entry> := [];
    var pos: nat := 0;
    PrependNone(EntriesFrom(segs, 0, read));
    assert segs[0..] == segs;
    for i := 0 to |segs|
      invariant EntriesFrom(segs, 0, read) == Prepend(entries, EntriesFrom(segs[i..], pos, read))
    {
      assert segs[i..][1..] == segs[i + 1..];
      var size := |segs[i].text|;
      if segs[i].Block? {
        var found := read(segs[i].text, pos);
        if found.Bad? { return Err(found.error); }
        if found.Good? {
          PrependTwice(entries, found.entry, EntriesFrom(segs[i + 1..], pos + size, read));
          entries := entries + [found.entry];
        }
      }
      pos := pos + size;
    }
    assert entries + [] == entries;
    return Ok(entries);
  }

  /** `rusty_v8_http_files` */
  method RustyV8HttpFiles(text: string, version: string) returns (r: Result<seq<Entry>, Error>)
    ensures r == EntriesFrom(Scan(text), 0, Reader(version))
  {
    r := CollectEntries(Scan(text), Reader(version));
  }

  ghost function Paths(entries: seq<Entry>): set<string> {
    set i | 0 <= i < |entries| :: entries[i].path
  }

  ghost predicate DistinctPaths(entries: seq<Entry>) {
    forall i, j :: 0 <= i < j < |entries| ==> entries[i].path != entries[j].path
  }

  /** The blocks of the version and the manifest name the same files, each once. */
  ghost predicate SameFiles(entries: seq<Entry>, checksums: Checksums) {
    entries != [] && DistinctPaths(entries) && Paths(entries) == checksums.Keys
  }

  ghost predicate Twice(entries: seq<Entry>, p: string) {
    exists i, j :: 0 <= i < j < |entries| && entries[i].path == p && entries[j].path == p
  }

  /** Entry `i` is the last one for its path. */
  ghost predicate LastFor(entries: seq<Entry>, i: int) {
    0 <= i < |entries| && forall j :: i < j < |entries| ==> entries[j].path != entries[i].path
  }

  /** `entry` is the last one among the entries with its path. */
  ghost predicate LastEntry(entries: seq<Entry>, entry: Entry) {
    exists k :: LastFor(entries, k) && entries[k] == entry
  }

  /** The dictionary from path to entry built so far, and the paths that were met again. */
  ghost predicate Tabulated(entries: seq<Entry>, files: map<string, Entry>, again: set<string>) {
    && files.Keys == Paths(entries)
    && (forall p :: p in files ==> LastEntry(entries, files[p]) && files[p].path == p)
    && (forall p :: p in again <==> Twice(entries, p))
  }

  lemma AddEntry(entries: seq<Entry>, entry: Entry)
    ensures Paths(entries + [entry]) == Paths(entries) + {entry.path}
    ensures forall p :: Twice(entries + [entry], p)
                   <==> Twice(entries, p) || (p == entry.path && p in Paths(entries))
  {
    var more := entries + [entry];
    forall i | 0 <= i < |entries| ensures more[i] == entries[i] && more[i].path in Paths(more) {}
    assert more[|entries|] == entry && entry.path in Paths(more);
    forall p | Twice(entries, p) || (p == entry.path && p in Paths(entries)) ensures Twice(more, p) {
      if Twice(entries, p) {
        var i, j :| 0 <= i < j < |entries| && entries[i].path == p && entries[j].path == p;
        assert more[i].path == p && more[j].path == p;
      } else {
        var i :| 0 <= i < |entries| && entries[i].path == p;
        assert more[i].path == p && more[|entries|].path == p;
      }
    }
  }

  lemma Tabulate(entries: seq<Entry>, entry: Entry, files: map<string, Entry>, again: set<string>)
    requires Tabulated(entries, files, again)
    ensures Tabulated(entries + [entry], files[entry.path := entry],
                      if entry.path in files then again + {entry.path} else again)
  {
    hide LastEntry;
    AddEntry(entries, entry);
    var more, files' := entries + [entry], files[entry.path := entry];
    assert files'.Keys == files.Keys + {entry.path};
    forall p | p in files' ensures LastEntry(more, files'[p]) {
      TabulateLast(entries, entry, files, p);
    }
  }

  lemma TabulateLast(entries: seq<Entry>, entry: Entry, files: map<string, Entry>, p: string)
    requires p == entry.path || p in files
    requires p in files ==> LastEntry(entries, files[p]) && files[p].path == p
    ensures LastEntry(entries + [entry], files[entry.path := entry][p])
  {
    var more := entries + [entry];
    if p == entry.path {
      assert LastFor(more, |entries|) && more[|entries|] == entry;
    } else {
      var k :| LastFor(entries, k) && entries[k] == files[p];
      assert LastFor(more, k) && more[k] == entries[k];
    }
  }

  /** `module_entry_set_errors`, without the order of the messages. */
  method ModuleEntrySetErrors(entries: seq<Entry>, checksums: Checksums) returns (errors: set<Error>)
    ensures errors == {} <==> SameFiles(entries, checksums)
    ensures errors == EntrySetErrors(entries, checksums)
  {
    if entries == [] { return {NoEntries}; }
    var files: map<string, Entry> := map[];
    var again: set<string> := {};
    for i := 0 to |entries|
      invariant Tabulated(entries[..i], files, again)
    {
      var entry := entries[i];
      Tabulate(entries[..i], entry, files, again);
      assert entries[..i + 1] == entries[..i] + [entry];
      if entry.path in files { again := again + {entry.path}; }
      files := files[entry.path := entry];
    }
    assert entries[..|entries|] == entries;
    errors := TableErrors(files, again, checksums);
    TableErrorsEmpty(files, again, checksums);
    NoErrors(entries, checksums, files, again);
    TableOfEntries(entries, files, again, checksums);
  }

  function TableErrors(files: map<string, Entry>, again: set<string>, checksums: Checksums): set<Error> {
    (set p | p in again :: DuplicatePath(p))
    + (set p | p in files && p !in checksums :: NotInManifest(files[p].name))
    + (set p | p in checksums && p !in files :: NotInModule(p))
  }

  /** The messages by their meaning: paths met twice, last entries of a path that the manifest
      lacks, and manifest files without an entry. */
  ghost function EntrySetErrors(entries: seq<Entry>, checksums: Checksums): set<Error> {
    if entries == [] then {NoEntries} else
      (set p | p in Paths(entries) && Twice(entries, p) :: DuplicatePath(p))
      + (set i | 0 <= i < |entries| && LastFor(entries, i) && entries[i].path !in checksums
           :: NotInManifest(entries[i].name))
      + (set p | p in checksums && p !in Paths(entries) :: NotInModule(p))
  }

  lemma TableOfEntries(entries: seq<Entry>, files: map<string, Entry>, again: set<string>,
                       checksums: Checksums)
    requires entries != [] && Tabulated(entries, files, again)
    ensures TableErrors(files, again, checksums) == EntrySetErrors(entries, checksums)
  {
    TableDuplicates(entries, again);
    TableUnlisted(entries, files, checksums);
  }

  lemma TableDuplicates(entries: seq<Entry>, again: set<string>)
    requires forall p :: p in again <==> Twice(entries, p)
    ensures (set p | p in again :: DuplicatePath(p))
         == set p | p in Paths(entries) && Twice(entries, p) :: DuplicatePath(p)
  {
    forall p | Twice(entries, p) ensures p in Paths(entries) {
      var i, j :| 0 <= i < j < |entries| && entries[i].path == p && entries[j].path == p;
    }
  }

  lemma TableUnlisted(entries: seq<Entry>, files: map<string, Entry>, checksums: Checksums)
    requires files.Keys == Paths(entries)
    requires forall p :: p in files ==> LastEntry(entries, files[p]) && files[p].path == p
    ensures (set p | p in files && p !in checksums :: NotInManifest(files[p].name))
         == set i | 0 <= i < |entries| && LastFor(entries, i) && entries[i].path !in checksums
              :: NotInManifest(entries[i].name)
  {
    forall i | LastFor(entries, i) ensures entries[i].path in files && files[entries[i].path] == entries[i] {
      var p := entries[i].path;
      assert p in Paths(entries);
      var k :| LastFor(entries, k) && entries[k] == files[p];
      assert k == i;
    }
    forall p | p in files && p !in checksums
      ensures exists i :: 0 <= i < |entries| && LastFor(entries, i) && entries[i].path !in checksums
                       && NotInManifest(entries[i].name) == NotInManifest(files[p].name)
    {
      var k :| LastFor(entries, k) && entries[k] == files[p];
    }
  }

  lemma TableErrorsEmpty(files: map<string, Entry>, again: set<string>, checksums: Checksums)
    ensures TableErrors(files, again, checksums) == {}
       <==> again == {} && files.Keys == checksums.Keys
  {
    var errors := TableErrors(files, again, checksums);
    assert forall p :: p in again ==> DuplicatePath(p) in errors;
    assert forall p :: p in files && p !in checksums ==> NotInManifest(files[p].name) in errors;
    assert forall p :: p in checksums && p !in files ==> NotInModule(p) in errors;
  }

  lemma NoErrors(entries: seq<Entry>, checksums: Checksums, files: map<string, Entry>, again: set<string>)
    requires entries != [] && Tabulated(entries, files, again)
    ensures SameFiles(entries, checksums) <==> again == {} && files.Keys == checksums.Keys
  {
    if !DistinctPaths(entries) {
      var i, j :| 0 <= i < j < |entries| && entries[i].path == entries[j].path;
      assert Twice(entries, entries[i].path);
    } else {
      assert forall p :: !Twice(entries, p);
    }
  }

  function DigestErrors(entry: Entry, checksums: Checksums): seq<Error> {
    if entry.path !in checksums then [] else
      match entry.sha256
      case None => [MissingDigest(entry.name)]
      case Some(got) =>
        if got == checksums[entry.path] then [] else
          [WrongDigest(entry.name, got, checksums[entry.path])]
  }

  function ChecksumErrors(entries: seq<Entry>, checksums: Checksums): seq<Error> {
    if entries == [] then [] else
      DigestErrors(entries[0], checksums) + ChecksumErrors(entries[1..], checksums)
  }

  /** `module_checksum_errors` */
  method ModuleChecksumErrors(entries: seq<Entry>, checksums: Checksums) returns (errors: seq<Error>)
    ensures errors == ChecksumErrors(entries, checksums)
  {
    errors := [];
    for i := 0 to |entries|
      invariant ChecksumErrors(entries, checksums) == errors + ChecksumErrors(entries[i..], checksums)
    {
      assert entries[i..][1..] == entries[i + 1..];
      Assoc(errors, DigestErrors(entries[i], checksums), ChecksumErrors(entries[i + 1..], checksums));
      errors := errors + DigestErrors(entries[i], checksums);
    }
  }

  /** The digest of every listed entry is the manifest's. */
  ghost predicate RightDigests(entries: seq<Entry>, checksums: Checksums) {
    forall i :: 0 <= i < |entries| && entries[i].path in checksums ==>
      entries[i].sha256 == Some(checksums[entries[i].path])
  }

  lemma {:induction false} ChecksumErrorsEmpty(entries: seq<Entry>, checksums: Checksums)
    ensures ChecksumErrors(entries, checksums) == [] <==> RightDigests(entries, checksums)
  {
    if entries != [] {
      ChecksumErrorsEmpty(entries[1..], checksums);
      assert entries == [entries[0]] + entries[1..];
      assert RightDigests(entries, checksums) <==>
        DigestErrors(entries[0], checksums) == [] && RightDigests(entries[1..], checksums);
    }
  }

  /** Entry `i` has this digest error. */
  predicate HasError(entries: seq<Entry>, i: nat, checksums: Checksums, e: Error) {
    && i < |entries| && entries[i].path in checksums
    && match e
       case MissingDigest(name) => name == entries[i].name && entries[i].sha256.None?
       case WrongDigest(name, got, expected) =>
         && name == entries[i].name && entries[i].sha256 == Some(got)
         && expected == checksums[entries[i].path] && got != expected
       case _ => false
  }

  /** The digest errors: one for each listed entry whose digest is missing or not the manifest's. */
  lemma {:induction false} ChecksumErrorsMean(entries: seq<Entry>, checksums: Checksums, e: Error)
    ensures e in ChecksumErrors(entries, checksums) <==> exists i: nat :: HasError(entries, i, checksums, e)
  {
    if entries != [] {
      var rest := entries[1..];
      ChecksumErrorsMean(rest, checksums, e);
      assert e in DigestErrors(entries[0], checksums) <==> HasError(entries, 0, checksums, e);
      forall i: nat ensures HasError(rest, i, checksums, e) <==> HasError(entries, i + 1, checksums, e) {}
      if i: nat :| HasError(entries, i, checksums, e) {
        if i > 0 { assert HasError(rest, i - 1, checksums, e); }
      }
      if i: nat :| HasError(rest, i, checksums, e) { assert HasError(entries, i + 1, checksums, e); }
    }
  }

  /** The table from file to digest that the blocks of the version spell out. */
  ghost function Listing(entries: seq<Entry>): set<(string, Option<string>)> {
    set i | 0 <= i < |entries| :: (entries[i].path, entries[i].sha256)
  }

  ghost function Manifest(checksums: Checksums): set<(string, Option<string>)> {
    set p | p in checksums :: (p, Some(checksums[p]))
  }

  /** What the check is for: the blocks list each file once and exactly as the manifest does. */
  ghost predicate Accepted(entries: seq<Entry>, checksums: Checksums) {
    entries != [] && DistinctPaths(entries) && Listing(entries) == Manifest(checksums)
  }

  ghost predicate Checked(text: string, checksums: Checksums, version: string) {
    match EntriesFrom(Scan(text), 0, Reader(version))
    case Err(_) => false
    case Ok(entries) => Accepted(entries, checksums)
  }

  lemma AcceptedMeans(entries: seq<Entry>, checksums: Checksums)
    ensures Accepted(entries, checksums)
       <==> SameFiles(entries, checksums) && RightDigests(entries, checksums)
  {
    if Accepted(entries, checksums) {
      forall i | 0 <= i < |entries|
        ensures entries[i].path in checksums && entries[i].sha256 == Some(checksums[entries[i].path])
      {
        assert (entries[i].path, entries[i].sha256) in Manifest(checksums);
      }
      forall p | p in checksums ensures p in Paths(entries) {
        assert (p, Some(checksums[p])) in Listing(entries);
      }
    }
    if SameFiles(entries, checksums) && RightDigests(entries, checksums) {
      forall i | 0 <= i < |entries| ensures (entries[i].path, entries[i].sha256) in Manifest(checksums) {
        assert entries[i].path in Paths(entries);
      }
      forall p | p in checksums ensures (p, Some(checksums[p])) in Listing(entries) {
        assert p in Paths(entries);
        var i :| 0 <= i < |entries| && entries[i].path == p;
      }
      assert Listing(entries) == Manifest(checksums);
    }
  }

  /** `check_module_bazel_text`: true where the script returns, false where it raises. */
  method CheckModuleBazelText(text: string, checksums: Checksums, version: string) returns (ok: bool)
    ensures ok <==> Checked(text, checksums, version)
  {
    var found := RustyV8HttpFiles(text, version);
    if found.Err? { return false; }
    var setErrors := ModuleEntrySetErrors(found.value, checksums);
    var digestErrors := ModuleChecksumErrors(found.value, checksums);
    ChecksumErrorsEmpty(found.value, checksums);
    AcceptedMeans(found.value, checksums);
    return setErrors == {} && digestErrors == [];
  }
}
