/** `update_module_bazel_text`, and its agreement with `check_module_bazel_text`. */
module ModuleUpdate {
  import opened Text
  import opened LineSearch
  import opened ModuleFields
  import opened ModuleEdits
  import opened ModuleEditProofs
  import opened ModuleEditTheorems
  import opened ModuleBlocks
  import opened ModuleScan
  import opened ModuleBazel
  import opened ChecksumManifest

  /** The rewriting of one block: `block_with_sha256` on the selected ones. */
  function EditBlock(block: string, version: string, checksums: Checksums): Option<string> {
    if !Selected(block, version) then Some(block) else
      match StringValue(block, PATH)
      case None => None
      case Some(path) => if path in checksums then Edited(block, checksums[path]) else None
  }

  function Editor(version: string, checksums: Checksums): string -> Option<string> {
    block => EditBlock(block, version, checksums)
  }

  function OrSame(edit: string -> Option<string>): string -> string {
    block => match edit(block) case None => block case Some(b) => b
  }

  predicate AllEdited(segs: seq<Segment>, edit: string -> Option<string>) {
    forall i :: 0 <= i < |segs| && segs[i].Block? ==> edit(segs[i].text).Some?
  }

  /** The updated text: every segment of the scan in its place, the selected blocks rewritten. */
  function Rewritten(text: string, edit: string -> Option<string>): Option<string> {
    if AllEdited(Scan(text), edit) then Some(Join(MapBlocks(Scan(text), OrSame(edit)))) else None
  }

  /** Entries in text order, at the offsets of their blocks. */
  ghost predicate Placed(entries: seq<Entry>, prev: nat, size: nat) {
    if entries == [] then prev <= size else
      && prev <= entries[0].start
      && entries[0].end == entries[0].start + |entries[0].block|
      && Placed(entries[1..], entries[0].end, size)
  }

  lemma PlacedWithin(entries: seq<Entry>, prev: nat, size: nat)
    requires Placed(entries, prev, size)
    ensures prev <= size && (entries != [] ==> entries[0].end <= size)
  {
    if entries != [] { PlacedWithin(entries[1..], entries[0].end, size); }
  }

  function Append(pre: string, r: Option<string>): Option<string> {
    match r case None => None case Some(t) => Some(pre + t)
  }

  /** What the splice loop still appends when it stands at offset `prev`. */
  ghost function SpliceFrom(text: string, prev: nat, entries: seq<Entry>, edit: Entry -> Option<string>)
    : Option<string>
    requires Placed(entries, prev, |text|)
    decreases |entries|
  {
    PlacedWithin(entries, prev, |text|);
    if entries == [] then Some(text[prev..])
    else
      var e := entries[0];
      match edit(e)
      case None => None
      case Some(b) => Append(text[prev..e.start] + b, SpliceFrom(text, e.end, entries[1..], edit))
  }

  /** The loop over the entries, with its running offset. */
  method Splice(text: string, entries: seq<Entry>, edit: Entry -> Option<string>)
    returns (r: Option<string>)
    requires Placed(entries, 0, |text|)
    ensures r == SpliceFrom(text, 0, entries, edit)
  {
    var updated := "";
    var previousEnd: nat := 0;
    assert entries[0..] == entries;
    AppendTwice("", "", SpliceFrom(text, 0, entries, edit));
    for k := 0 to |entries|
      invariant Placed(entries[k..], previousEnd, |text|)
      invariant SpliceFrom(text, 0, entries, edit)
             == Append(updated, SpliceFrom(text, previousEnd, entries[k..], edit))
    {
      var e := entries[k];
      PlacedWithin(entries[k..], previousEnd, |text|);
      assert entries[k..][1..] == entries[k + 1..];
      var block := edit(e);
      if block.None? { return None; }
      AppendTwice(updated, text[previousEnd..e.start] + block.value,
                  SpliceFrom(text, e.end, entries[k + 1..], edit));
      updated := updated + (text[previousEnd..e.start] + block.value);
      previousEnd := e.end;
    }
    return Some(updated + text[previousEnd..]);
  }

  lemma AppendTwice(a: string, b: string, r: Option<string>)
    ensures Append(a, Append(b, r)) == Append(a + b, r)
    ensures a == "" ==> Append(a, r) == r
  {
    if r.Some? {
      Assoc(a, b, r.value);
      assert "" + r.value == r.value;
    }
  }

  /** Reading and rewriting a block agree: a skipped block is kept, an entry is rewritten as its
      block is. */
  ghost predicate Agree(read: (string, nat) -> Found, edit: string -> Option<string>,
                        edit1: Entry -> Option<string>) {
    forall b: string, start: nat :: match read(b, start)
      case Skipped => edit(b) == Some(b)
      case Bad(_) => true
      case Good(e) => e.block == b && e.start == start && e.end == start + |b| && edit1(e) == edit(b)
  }

  lemma AllEditedHead(segs: seq<Segment>, edit: string -> Option<string>)
    requires segs != []
    ensures AllEdited(segs, edit)
       <==> (segs[0].Block? ==> edit(segs[0].text).Some?) && AllEdited(segs[1..], edit)
  {
    assert segs == [segs[0]] + segs[1..];
  }

  lemma MapHead(segs: seq<Segment>, e: string -> string)
    requires segs != []
    ensures Join(MapBlocks(segs, e))
         == (if segs[0].Block? then e(segs[0].text) else segs[0].text) + Join(MapBlocks(segs[1..], e))
  {
    var s := if segs[0].Block? then Block(e(segs[0].text)) else segs[0];
    assert MapBlocks(segs, e) == [s] + MapBlocks(segs[1..], e);
    JoinCons(s, MapBlocks(segs[1..], e));
  }

  function EditedTail(segs: seq<Segment>, edit: string -> Option<string>): Option<string> {
    if AllEdited(segs, edit) then Some(Join(MapBlocks(segs, OrSame(edit)))) else None
  }

  lemma TailStep(segs: seq<Segment>, edit: string -> Option<string>)
    requires segs != []
    ensures EditedTail(segs, edit) ==
      if segs[0].Plain? then Append(segs[0].text, EditedTail(segs[1..], edit)) else
        match edit(segs[0].text)
        case None => None
        case Some(b) => Append(b, EditedTail(segs[1..], edit))
  {
    AllEditedHead(segs, edit);
    MapHead(segs, OrSame(edit));
  }

  /** Splicing at the offsets is rewriting segment by segment. */
  lemma {:induction false} SpliceMeans(pre: string, prev: nat, segs: seq<Segment>,
                                       read: (string, nat) -> Found, edit: string -> Option<string>,
                                       edit1: Entry -> Option<string>)
    requires Agree(read, edit, edit1) && prev <= |pre|
    requires EntriesFrom(segs, |pre|, read).Ok?
    ensures var es := EntriesFrom(segs, |pre|, read).value;
            && Placed(es, prev, |pre + Join(segs)|)
            && SpliceFrom(pre + Join(segs), prev, es, edit1) == Append(pre[prev..], EditedTail(segs, edit))
    decreases |segs|
  {
    if segs == [] {
      assert pre + "" == pre && pre[prev..] + "" == pre[prev..];
    } else {
      var s := segs[0].text;
      Assoc(pre, s, Join(segs[1..]));
      TailStep(segs, edit);
      var found := read(s, |pre|);
      if segs[0].Block? && found.Good? {
        SpliceMeans(pre + s, |pre + s|, segs[1..], read, edit, edit1);
        SpliceEntry(pre, prev, s, segs, read, edit, edit1);
      } else {
        SpliceMeans(pre + s, prev, segs[1..], read, edit, edit1);
        SlicePast(pre, s, prev);
        AppendTwice(pre[prev..], s, EditedTail(segs[1..], edit));
      }
    }
  }

  lemma SlicePast(pre: string, s: string, prev: nat)
    requires prev <= |pre|
    ensures (pre + s)[prev..] == pre[prev..] + s
  {}

  lemma SpliceEntry(pre: string, prev: nat, s: string, segs: seq<Segment>,
                    read: (string, nat) -> Found, edit: string -> Option<string>,
                    edit1: Entry -> Option<string>)
    requires Agree(read, edit, edit1) && prev <= |pre|
    requires segs != [] && segs[0] == Block(s) && read(s, |pre|).Good?
    requires EntriesFrom(segs, |pre|, read).Ok?
    requires EntriesFrom(segs[1..], |pre + s|, read).Ok?
    requires var es := EntriesFrom(segs[1..], |pre + s|, read).value;
             var text := pre + s + Join(segs[1..]);
             && Placed(es, |pre + s|, |text|)
             && SpliceFrom(text, |pre + s|, es, edit1)
                == Append((pre + s)[|pre + s|..], EditedTail(segs[1..], edit))
    ensures var es := EntriesFrom(segs, |pre|, read).value;
            var text := pre + s + Join(segs[1..]);
            && Placed(es, prev, |text|)
            && SpliceFrom(text, prev, es, edit1) == Append(pre[prev..], EditedTail(segs, edit))
  {
    var text := pre + s + Join(segs[1..]);
    var e := read(s, |pre|).entry;
    var es := EntriesFrom(segs, |pre|, read).value;
    var more := EntriesFrom(segs[1..], |pre + s|, read).value;
    assert es == [e] + more && es[1..] == more;
    assert (pre + s)[|pre + s|..] == "";
    AppendTwice("", "", EditedTail(segs[1..], edit));
    assert text[prev..|pre|] == pre[prev..];
    TailStep(segs, edit);
    if edit(s).Some? {
      AppendTwice(pre[prev..], edit(s).value, EditedTail(segs[1..], edit));
    }
  }

  function EntryEditor(checksums: Checksums): Entry -> Option<string> {
    (e: Entry) => if e.path in checksums then Edited(e.block, checksums[e.path]) else None
  }

  lemma ReaderAgrees(version: string, checksums: Checksums)
    ensures Agree(Reader(version), Editor(version, checksums), EntryEditor(checksums))
  {}

  /** `update_module_bazel_text` by its meaning: None where the script raises. */
  ghost function Updated(text: string, checksums: Checksums, version: string): Option<string> {
    match EntriesFrom(Scan(text), 0, Reader(version))
    case Err(_) => None
    case Ok(entries) =>
      if SameFiles(entries, checksums) then Rewritten(text, Editor(version, checksums)) else None
  }

  /** `update_module_bazel_text` */
  method UpdateModuleBazelText(text: string, checksums: Checksums, version: string)
    returns (r: Option<string>)
    ensures r == Updated(text, checksums, version)
  {
    var found := RustyV8HttpFiles(text, version);
    if found.Err? { return None; }
    var errors := ModuleEntrySetErrors(found.value, checksums);
    if errors != {} { return None; }
    SpliceAll(text, version, checksums);
    r := Splice(text, found.value, EntryEditor(checksums));
  }

  lemma SpliceAll(text: string, version: string, checksums: Checksums)
    requires EntriesFrom(Scan(text), 0, Reader(version)).Ok?
    ensures var es := EntriesFrom(Scan(text), 0, Reader(version)).value;
            && Placed(es, 0, |text|)
            && SpliceFrom(text, 0, es, EntryEditor(checksums)) == Rewritten(text, Editor(version, checksums))
  {
    var edit := Editor(version, checksums);
    ReaderAgrees(version, checksums);
    SpliceMeans("", 0, Scan(text), Reader(version), edit, EntryEditor(checksums));
    JoinScan(text);
    assert "" + text == text;
    AppendTwice("", "", EditedTail(Scan(text), edit));
  }

  /** Every block of the version has something to edit. */
  predicate AllEditable(text: string, version: string) {
    forall i :: 0 <= i < |Scan(text)| && Scan(text)[i].Block? && Selected(Scan(text)[i].text, version)
      ==> Editable(Scan(text)[i].text)
  }

  /** In every block of the version a check will read the new digest. */
  predicate AllReadBack(text: string, version: string) {
    forall i :: 0 <= i < |Scan(text)| && Scan(text)[i].Block? && Selected(Scan(text)[i].text, version)
      ==> ReadsBack(Scan(text)[i].text)
  }

  /** What the update does to one block. */
  ghost predicate BlockUpdated(b: string, b': string, version: string, checksums: Checksums) {
    if !Selected(b, version) then b' == b else
      && Selected(b', version)
      && StringValue(b, PATH).Some? && StringValue(b, PATH).value in checksums
      && StringValue(b', SHA) == (if ReadsBack(b) then Some(checksums[StringValue(b, PATH).value])
                                  else StringValue(b, SHA))
      && (!ReadsBack(b) ==> StringValue(b, SHA).Some? && !Hex(StringValue(b, SHA).value))
      && StringValue(b', NAME) == StringValue(b, NAME) && StringValue(b', PATH) == StringValue(b, PATH)
      && OthersAfter(b, b')
  }

  /** What all fields but the digest read as. */
  ghost predicate OthersAfter(b: string, b': string) {
    forall field :: Word(field) && field != SHA ==> StringValue(b', field) == FieldAfter(b, field)
  }

  lemma NotStray(b: string, version: string, checksums: Checksums)
    requires ManifestOk(checksums) && Selected(b, version)
    requires StringValue(b, PATH).Some? && StringValue(b, PATH).value in checksums
    ensures StringValue(b, NAME).Some? && !Stray(StringValue(b, NAME).value)
    ensures !Stray(StringValue(b, PATH).value)
  {
    assert ",\n"[0] == ',' && ",\n"[1] == '\n' && IsSpace('\n');
  }

  lemma EditOthers(b: string, c: string)
    requires Editable(b) && Hex(c)
    ensures Edited(b, c).Some? && OthersAfter(b, Edited(b, c).value)
  {
    hide Editable, Edited, StringValue, Word, RunsOn, FieldAfter;
    EditedExactly(b, c);
    forall field | Word(field) && field != SHA
      ensures StringValue(Edited(b, c).value, field) == FieldAfter(b, field)
    {
      OtherFieldsAfter(b, c, field);
    }
  }

  lemma OtherAfter(b: string, b': string, field: string)
    requires OthersAfter(b, b') && Word(field) && field != SHA
    ensures StringValue(b', field) == FieldAfter(b, field)
  {}

  /** The name and the path of a selected block are not cut off. */
  lemma NameAndPathKept(b: string, c: string)
    requires Editable(b) && Hex(c)
    requires StringValue(b, NAME).Some? && !Stray(StringValue(b, NAME).value)
    requires StringValue(b, PATH).Some? && !Stray(StringValue(b, PATH).value)
    ensures FieldAfter(b, NAME) == StringValue(b, NAME) && FieldAfter(b, PATH) == StringValue(b, PATH)
  {
    hide Editable, Edited, StringValue, Word, RunsOn;
    FieldNames();
    OtherFieldsAfter(b, c, NAME);
    OtherFieldsAfter(b, c, PATH);
  }

  lemma EditKeepsEnds(b: string, c: string)
    requires IsBlock(b) && Editable(b) && Hex(c)
    ensures Edited(b, c).Some? && SameEnds(b, Edited(b, c).value)
  {
    if Find(b, Matcher(SHA, HexField)).Some? { ReplacedBlock(b, c); } else { InsertedBlock(b, c); }
  }

  lemma UpdatesBlock(b: string, version: string, checksums: Checksums)
    requires IsBlock(b) && ManifestOk(checksums)
    requires Selected(b, version) ==>
      Editable(b) && StringValue(b, PATH).Some? && StringValue(b, PATH).value in checksums
    ensures EditBlock(b, version, checksums).Some?
    ensures var b' := EditBlock(b, version, checksums).value;
            SameEnds(b, b') && BlockUpdated(b, b', version, checksums)
  {
    if Selected(b, version) {
      hide ReadsBack, StringValue, Edited, Editable, SameEnds, Hex, BlockUpdated, Selected, IsBlock;
      UpdatesSelected(b, checksums[StringValue(b, PATH).value], version, checksums);
    }
  }

  lemma UpdatesSelected(b: string, c: string, version: string, checksums: Checksums)
    requires IsBlock(b) && ManifestOk(checksums) && Selected(b, version) && Editable(b) && Hex(c)
    requires StringValue(b, PATH).Some? && StringValue(b, PATH).value in checksums
    requires c == checksums[StringValue(b, PATH).value]
    ensures Edited(b, c).Some? && SameEnds(b, Edited(b, c).value)
    ensures BlockUpdated(b, Edited(b, c).value, version, checksums)
  {
    assert NAME != SHA && PATH != SHA;
    hide *;
    DigestSet(b, c);
    FieldNames();
    NotStray(b, version, checksums);
    EditOthers(b, c);
    NameAndPathKept(b, c);
    OtherAfter(b, Edited(b, c).value, NAME);
    OtherAfter(b, Edited(b, c).value, PATH);
    EditKeepsEnds(b, c);
    SelectedUpdated(b, Edited(b, c).value, version, checksums);
  }

  lemma SelectedUpdated(b: string, b': string, version: string, checksums: Checksums)
    requires Selected(b, version) && StringValue(b, PATH).Some? && StringValue(b, PATH).value in checksums
    requires StringValue(b', SHA) == (if ReadsBack(b) then Some(checksums[StringValue(b, PATH).value])
                                      else StringValue(b, SHA))
    requires !ReadsBack(b) ==> StringValue(b, SHA).Some? && !Hex(StringValue(b, SHA).value)
    requires StringValue(b', NAME) == StringValue(b, NAME) && StringValue(b', PATH) == StringValue(b, PATH)
    requires OthersAfter(b, b')
    ensures BlockUpdated(b, b', version, checksums)
  {
    hide ReadsBack, StringValue, Slug, OthersAfter, Hex;
  }

  /** Every block a reader takes has its entry. */
  lemma {:induction false} EntryListed(segs: seq<Segment>, base: nat, read: (string, nat) -> Found, i: nat)
    returns (start: nat)
    requires i < |segs| && segs[i].Block? && EntriesFrom(segs, base, read).Ok?
    ensures match read(segs[i].text, start)
            case Skipped => true
            case Bad(_) => false
            case Good(e) => e.path in Paths(EntriesFrom(segs, base, read).value)
    decreases |segs|
  {
    var later := EntriesFrom(segs[1..], base + |segs[0].text|, read);
    if i == 0 {
      start := base;
      if read(segs[0].text, base).Good? {
        var es := [read(segs[0].text, base).entry] + later.value;
        assert es[0].path in Paths(es);
      }
    } else {
      start := EntryListed(segs[1..], base + |segs[0].text|, read, i - 1);
      if segs[0].Block? && read(segs[0].text, base).Good? {
        PathsGrow(read(segs[0].text, base).entry, later.value);
      }
    }
  }

  lemma PathsGrow(e: Entry, es: seq<Entry>)
    ensures Paths(es) <= Paths([e] + es)
  {
    forall i | 0 <= i < |es| ensures es[i].path in Paths([e] + es) {
      assert ([e] + es)[i + 1] == es[i];
    }
  }

  ghost predicate BlocksOk(segs: seq<Segment>) {
    forall i :: 0 <= i < |segs| && segs[i].Block? ==> IsBlock(segs[i].text)
  }

  lemma BlocksAppend(a: seq<Segment>, b: seq<Segment>)
    requires BlocksOk(a) && BlocksOk(b)
    ensures BlocksOk(a + b)
  {}

  function Head(s: Start): seq<Segment> {
    match s
    case Over => []
    case Line(l, _) => [Plain(l)]
    case Closed(b, _) => [Block(b)]
    case Mid(b, l, _) => [Block(b), Plain(l)]
  }

  lemma HeadOk(t: string)
    ensures BlocksOk(Head(StartOf(t)))
  {
    StartSplits(t);
    match StartOf(t)
    case Over =>
    case Line(l, _) =>
    case Closed(b, _) => OneBlock(b, "");
    case Mid(b, l, _) => OneBlock(b, l);
  }

  lemma OneBlock(b: string, l: string)
    requires IsBlock(b)
    ensures BlocksOk([Block(b)]) && BlocksOk([Block(b), Plain(l)])
  {}

  lemma {:induction false} ScanBlocks(t: string)
    ensures BlocksOk(Scan(t))
    decreases |t|
  {
    HeadOk(t);
    RestShorter(t);
    if t != "" {
      ScanBlocks(Rest(StartOf(t)));
      BlocksAppend(Head(StartOf(t)), Scan(Rest(StartOf(t))));
    }
  }

  /** Every block of the scan is updated as it should be. */
  lemma UpdatesEach(text: string, version: string, checksums: Checksums, i: nat)
    requires ManifestOk(checksums) && AllEditable(text, version) && FilesAgree(text, checksums, version)
    requires i < |Scan(text)| && Scan(text)[i].Block?
    ensures var b := Scan(text)[i].text;
            && EditBlock(b, version, checksums).Some?
            && SameEnds(b, EditBlock(b, version, checksums).value)
            && BlockUpdated(b, EditBlock(b, version, checksums).value, version, checksums)
  {
    ScanBlocks(text);
    var start := EntryListed(Scan(text), 0, Reader(version), i);
    ReadsEntry(Scan(text)[i].text, start, version);
    UpdatesBlock(Scan(text)[i].text, version, checksums);
  }

  lemma ReadsEntry(b: string, start: nat, version: string)
    ensures match Reader(version)(b, start)
            case Skipped => !Selected(b, version)
            case Bad(_) => Selected(b, version)
            case Good(e) =>
              && Selected(b, version) && e.block == b
              && StringValue(b, PATH) == Some(e.path) && e.sha256 == StringValue(b, SHA)
  {}

  /** Segment by segment: plain text in place byte for byte, blocks as they should be updated. */
  ghost predicate SegmentsUpdated(segs: seq<Segment>, segs': seq<Segment>, version: string,
                                  checksums: Checksums) {
    && |segs'| == |segs|
    && forall i :: 0 <= i < |segs| ==>
         if segs[i].Plain? then segs'[i] == segs[i] else
           segs'[i].Block? && BlockUpdated(segs[i].text, segs'[i].text, version, checksums)
  }

  ghost predicate FilesAgree(text: string, checksums: Checksums, version: string) {
    var found := EntriesFrom(Scan(text), 0, Reader(version));
    found.Ok? && SameFiles(found.value, checksums)
  }

  lemma EditsAll(text: string, checksums: Checksums, version: string)
    requires ManifestOk(checksums) && AllEditable(text, version) && FilesAgree(text, checksums, version)
    ensures var segs, edit := Scan(text), Editor(version, checksums);
            && AllEdited(segs, edit) && KeepsEnds(OrSame(edit), segs)
            && SegmentsUpdated(segs, MapBlocks(segs, OrSame(edit)), version, checksums)
  {
    var edit := Editor(version, checksums);
    hide BlockUpdated, FilesAgree, EditBlock;
    forall i | 0 <= i < |Scan(text)| && Scan(text)[i].Block?
      ensures edit(Scan(text)[i].text).Some?
      ensures SameEnds(Scan(text)[i].text, OrSame(edit)(Scan(text)[i].text))
      ensures BlockUpdated(Scan(text)[i].text, OrSame(edit)(Scan(text)[i].text), version, checksums)
    {
      UpdatesEach(text, version, checksums, i);
    }
  }

  /** An edit that succeeds had something to edit. */
  lemma EditsEditable(text: string, checksums: Checksums, version: string)
    requires AllEdited(Scan(text), Editor(version, checksums))
    ensures AllEditable(text, version)
  {
    forall i | 0 <= i < |Scan(text)| && Scan(text)[i].Block? && Selected(Scan(text)[i].text, version)
      ensures Editable(Scan(text)[i].text)
    {
      var b := Scan(text)[i].text;
      assert Editor(version, checksums)(b).Some?;
      EditedExactly(b, checksums[StringValue(b, PATH).value]);
    }
  }

  /** The update returns exactly when the blocks and the manifest name the same files and every
      block of the version has something to edit. */
  lemma UpdateReturns(text: string, checksums: Checksums, version: string)
    requires ManifestOk(checksums)
    ensures Updated(text, checksums, version).Some?
       <==> FilesAgree(text, checksums, version) && AllEditable(text, version)
  {
    if FilesAgree(text, checksums, version) && AllEditable(text, version) { EditsAll(text, checksums, version); }
    if Updated(text, checksums, version).Some? { EditsEditable(text, checksums, version); }
  }

  /** The scan of the result is the old scan with each block replaced by its update. */
  lemma UpdatePreserves(text: string, checksums: Checksums, version: string)
    requires ManifestOk(checksums) && Updated(text, checksums, version).Some?
    ensures var text' := Updated(text, checksums, version).value;
            && Scan(text') == MapBlocks(Scan(text), OrSame(Editor(version, checksums)))
            && SegmentsUpdated(Scan(text), Scan(text'), version, checksums)
  {
    UpdateReturns(text, checksums, version);
    EditsAll(text, checksums, version);
    Rescan(text, OrSame(Editor(version, checksums)));
  }

  /** What a reader finds in a block before and after the update. */
  ghost predicate EntryPair(f: Found, f': Found, checksums: Checksums) {
    match f
    case Skipped => f'.Skipped?
    case Bad(_) => true
    case Good(e) =>
      && f'.Good? && f'.entry.path == e.path && f'.entry.name == e.name
      && e.path in checksums
      && f'.entry.sha256 == (if ReadsBack(e.block) then Some(checksums[e.path]) else e.sha256)
      && (!ReadsBack(e.block) ==> e.sha256.Some? && !Hex(e.sha256.value))
  }

  ghost predicate EntriesPair(es: seq<Entry>, es': seq<Entry>, checksums: Checksums) {
    && |es'| == |es|
    && forall k :: 0 <= k < |es| ==> EntryPair(Good(es[k]), Good(es'[k]), checksums)
  }

  /** Entry by entry: the same names and files, with the manifest's digests where they are read. */
  lemma {:induction false} EntriesUpdated(segs: seq<Segment>, segs': seq<Segment>, base: nat, base': nat,
                                          read: (string, nat) -> Found, checksums: Checksums)
    requires |segs'| == |segs| && EntriesFrom(segs, base, read).Ok?
    requires forall i :: 0 <= i < |segs| ==> segs'[i].Block? == segs[i].Block?
    requires forall i, s: nat, s': nat :: 0 <= i < |segs| && segs[i].Block? ==>
      EntryPair(read(segs[i].text, s), read(segs'[i].text, s'), checksums)
    ensures EntriesFrom(segs', base', read).Ok?
    ensures EntriesPair(EntriesFrom(segs, base, read).value, EntriesFrom(segs', base', read).value, checksums)
  {
    hide ReadsBack;
    if segs != [] {
      forall i, s: nat, s': nat | 0 <= i < |segs[1..]| && segs[1..][i].Block?
        ensures EntryPair(read(segs[1..][i].text, s), read(segs'[1..][i].text, s'), checksums)
      {
        assert segs[1..][i] == segs[i + 1] && segs'[1..][i] == segs'[i + 1];
      }
      EntriesUpdated(segs[1..], segs'[1..], base + |segs[0].text|, base' + |segs'[0].text|, read, checksums);
      assert segs[0].Block? ==> EntryPair(read(segs[0].text, base), read(segs'[0].text, base'), checksums);
    }
  }

  lemma EntryUpdated(b: string, b': string, start: nat, start': nat, version: string, checksums: Checksums)
    requires ManifestOk(checksums) && BlockUpdated(b, b', version, checksums)
    ensures EntryPair(Reader(version)(b, start), Reader(version)(b', start'), checksums)
  {
    hide ReadsBack, Stray, Word, StringValue, Slug, OthersAfter, Hex;
  }

  /** The check accepts the new entries exactly if every digest is read back. */
  lemma PairAccepted(es: seq<Entry>, es': seq<Entry>, checksums: Checksums)
    requires ManifestOk(checksums) && EntriesPair(es, es', checksums) && SameFiles(es, checksums)
    ensures SameFiles(es', checksums)
    ensures Accepted(es', checksums) <==> forall k :: 0 <= k < |es| ==> ReadsBack(es[k].block)
  {
    hide ReadsBack;
    forall k | 0 <= k < |es|
      ensures es[k].path == es'[k].path
      ensures es'[k].sha256 == Some(checksums[es[k].path]) <==> ReadsBack(es[k].block)
      ensures es[k].path in Paths(es') && es'[k].path in Paths(es)
    {
      assert EntryPair(Good(es[k]), Good(es'[k]), checksums);
    }
    assert Paths(es') == Paths(es);
    AcceptedMeans(es', checksums);
  }

  /** A reader takes exactly the blocks of its selection. */
  ghost predicate TakesBlocks(read: (string, nat) -> Found, selected: string -> bool) {
    forall b: string, start: nat :: match read(b, start)
      case Skipped => !selected(b)
      case Bad(_) => true
      case Good(e) => selected(b) && e.block == b
  }

  ghost predicate EntriesAre(es: seq<Entry>, good: string -> bool) {
    forall k :: 0 <= k < |es| ==> good(es[k].block)
  }

  ghost predicate BlocksAre(segs: seq<Segment>, selected: string -> bool, good: string -> bool) {
    forall i :: 0 <= i < |segs| && segs[i].Block? && selected(segs[i].text) ==> good(segs[i].text)
  }

  lemma EntriesCons(e: Entry, es: seq<Entry>, good: string -> bool)
    ensures EntriesAre([e] + es, good) <==> good(e.block) && EntriesAre(es, good)
  {
    var all := [e] + es;
    assert all[0] == e && forall k :: 0 <= k < |es| ==> all[k + 1] == es[k];
  }

  lemma BlocksCons(segs: seq<Segment>, selected: string -> bool, good: string -> bool)
    requires segs != []
    ensures BlocksAre(segs, selected, good)
       <==> (segs[0].Block? && selected(segs[0].text) ==> good(segs[0].text)) && BlocksAre(segs[1..], selected, good)
  {
    assert forall k :: 0 <= k < |segs| - 1 ==> segs[1..][k] == segs[k + 1];
    assert segs == [segs[0]] + segs[1..];
  }

  /** The entries are the selected blocks. */
  lemma {:induction false} EntriesBlocks(segs: seq<Segment>, base: nat, read: (string, nat) -> Found,
                                         selected: string -> bool, good: string -> bool)
    requires EntriesFrom(segs, base, read).Ok? && TakesBlocks(read, selected)
    ensures EntriesAre(EntriesFrom(segs, base, read).value, good) <==> BlocksAre(segs, selected, good)
  {
    hide EntriesAre, BlocksAre;
    if segs == [] {
      NothingThere(selected, good);
    } else {
      EntriesBlocks(segs[1..], base + |segs[0].text|, read, selected, good);
      BlocksCons(segs, selected, good);
      var more := EntriesFrom(segs[1..], base + |segs[0].text|, read).value;
      var found := read(segs[0].text, base);
      if segs[0].Block? && found.Good? { EntriesCons(found.entry, more, good); }
    }
  }

  lemma NothingThere(selected: string -> bool, good: string -> bool)
    ensures EntriesAre([], good) && BlocksAre([], selected, good)
  {}

  lemma ReaderTakes(version: string)
    ensures TakesBlocks(Reader(version), (b: string) => Selected(b, version))
  {}

  /** After an update that returns, the blocks and the manifest still name the same files, and the
      check passes exactly if in every block of the version the new digest is read back. */
  lemma UpdateThenCheck(text: string, checksums: Checksums, version: string)
    requires ManifestOk(checksums) && Updated(text, checksums, version).Some?
    ensures var text' := Updated(text, checksums, version).value;
            && FilesAgree(text', checksums, version)
            && (Checked(text', checksums, version) <==> AllReadBack(text, version))
  {
    hide ReadsBack, BlockUpdated, EntryPair;
    UpdateReturns(text, checksums, version);
    UpdatePreserves(text, checksums, version);
    var read := Reader(version);
    var segs, segs' := Scan(text), Scan(Updated(text, checksums, version).value);
    forall i, s: nat, s': nat | 0 <= i < |segs| && segs[i].Block?
      ensures EntryPair(read(segs[i].text, s), read(segs'[i].text, s'), checksums)
    {
      EntryUpdated(segs[i].text, segs'[i].text, s, s', version, checksums);
    }
    EntriesUpdated(segs, segs', 0, 0, read, checksums);
    PairAccepted(EntriesFrom(segs, 0, read).value, EntriesFrom(segs', 0, read).value, checksums);
    ReaderTakes(version);
    EntriesBlocks(segs, 0, read, (b: string) => Selected(b, version), (b: string) => ReadsBack(b));
  }

  predicate LowerCase(b: string) { StringValue(b, SHA).Some? ==> Hex(StringValue(b, SHA).value) }

  predicate AllLowerCase(text: string, version: string) {
    forall i :: 0 <= i < |Scan(text)| && Scan(text)[i].Block? && Selected(Scan(text)[i].text, version)
      ==> LowerCase(Scan(text)[i].text)
  }

  /** With lower-case digests only, the check passes on whatever the update returns. */
  lemma LowerCaseChecks(text: string, checksums: Checksums, version: string)
    requires ManifestOk(checksums) && Updated(text, checksums, version).Some?
    requires AllLowerCase(text, version)
    ensures Checked(Updated(text, checksums, version).value, checksums, version)
  {
    hide ReadsBack;
    UpdateThenCheck(text, checksums, version);
    forall i | 0 <= i < |Scan(text)| && Scan(text)[i].Block? && Selected(Scan(text)[i].text, version)
      ensures ReadsBack(Scan(text)[i].text)
    {
      LowerReadsBack(Scan(text)[i].text);
    }
  }

  ghost predicate AllSettled(text: string, version: string) {
    forall i :: 0 <= i < |Scan(text)| && Scan(text)[i].Block? && Selected(Scan(text)[i].text, version)
      ==> Settled(Scan(text)[i].text)
  }

  lemma BlockTwice(b: string, b': string, version: string, checksums: Checksums)
    requires IsBlock(b) && ManifestOk(checksums) && (Selected(b, version) ==> Editable(b))
    requires EditBlock(b, version, checksums) == Some(b') && BlockUpdated(b, b', version, checksums)
    ensures EditBlock(b', version, checksums).Some?
    ensures EditBlock(b', version, checksums) == Some(b') <==> Selected(b, version) ==> Settled(b)
  {
    hide ReadsBack, Stray, Word, Settled, Editable;
    if Selected(b, version) {
      FieldNames();
      EditTwice(b, checksums[StringValue(b, PATH).value]);
    }
  }

  /** A second update changes nothing, exactly when no digest was inserted before a blank line. */
  lemma UpdateTwice(text: string, checksums: Checksums, version: string)
    requires ManifestOk(checksums) && Updated(text, checksums, version).Some?
    ensures var text' := Updated(text, checksums, version).value;
            Updated(text', checksums, version) == Some(text') <==> AllSettled(text, version)
  {
    hide BlockUpdated, Settled, EditBlock, Editable, IsBlock, FilesAgree, Selected;
    UpdateReturns(text, checksums, version);
    UpdatePreserves(text, checksums, version);
    UpdateThenCheck(text, checksums, version);
    ScanBlocks(text);
    var text' := Updated(text, checksums, version).value;
    var e := OrSame(Editor(version, checksums));
    var segs, segs' := Scan(text), Scan(text');
    forall i | 0 <= i < |segs| && segs[i].Block?
      ensures segs'[i].Block? && Editor(version, checksums)(segs'[i].text).Some?
      ensures e(segs'[i].text) == segs'[i].text <==> (Selected(segs[i].text, version) ==> Settled(segs[i].text))
    {
      UpdatesEach(text, version, checksums, i);
      BlockTwice(segs[i].text, segs'[i].text, version, checksums);
    }
    JoinScan(text');
    SameMap(segs, segs', e, version);
    Again(text', checksums, version);
  }

  /** A text whose blocks can all be edited is a fixed point exactly if none of them changes. */
  lemma Again(text: string, checksums: Checksums, version: string)
    requires ManifestOk(checksums)
    requires FilesAgree(text, checksums, version) && AllEdited(Scan(text), Editor(version, checksums))
    ensures Updated(text, checksums, version) == Some(text)
       <==> MapBlocks(Scan(text), OrSame(Editor(version, checksums))) == Scan(text)
  {
    UpdatePreserves(text, checksums, version);
    JoinScan(text);
  }

  lemma SameMap(segs: seq<Segment>, segs': seq<Segment>, e: string -> string, version: string)
    requires |segs'| == |segs| && forall i :: 0 <= i < |segs| ==> segs'[i].Block? == segs[i].Block?
    requires forall i :: 0 <= i < |segs| && segs[i].Block? ==>
      (e(segs'[i].text) == segs'[i].text <==> (Selected(segs[i].text, version) ==> Settled(segs[i].text)))
    ensures MapBlocks(segs', e) == segs' <==>
      forall i :: 0 <= i < |segs| && segs[i].Block? && Selected(segs[i].text, version) ==> Settled(segs[i].text)
  {
    var m := MapBlocks(segs', e);
    assert m == segs' <==> forall i :: 0 <= i < |segs'| ==> m[i] == segs'[i];
  }
}
