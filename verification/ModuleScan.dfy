/** Scanning a MODULE.bazel text for its `http_file` blocks, and scanning it again after an edit. */
module ModuleScan {
  import opened Text
  import opened ModuleBlocks

  /** `finditer` of the block expression, as the sequence of the texts between matches (by line)
      and of the matches. */
  datatype Segment = Plain(text: string) | Block(text: string)

  function Join(segs: seq<Segment>): string {
    if segs == [] then "" else segs[0].text + Join(segs[1..])
  }

  /** The complete lines in front of the closing line that `Close` finds. */
  function BeforeClose(t: string): string
    decreases |t|
  {
    if t == "" || t[0] == ')' then "" else
      assert t == FirstLine(t) + NextLine(t);
      FirstLine(t) + BeforeClose(NextLine(t))
  }

  /** How a text at a line start begins: with a plain line, with a block whose closing parenthesis
      ends its line, or with one that has more text behind the parenthesis. */
  datatype Start =
    | Over
    | Line(l: string, rest: string)
    | Closed(b: string, rest: string)
    | Mid(b: string, l: string, rest: string)

  function StartOf(t: string): Start {
    if t == "" then Over
    else if HEAD <= t && Close(t[|HEAD|..]).Some? then
      var z := Close(t[|HEAD|..]).value;
      var b := HEAD + BeforeClose(t[|HEAD|..]);
      if ")\n" <= z then Closed(b + ")\n", z[2..])
      else if |z| == 1 then Closed(b + ")", "")
      else Mid(b + ")", FirstLine(z[1..]), NextLine(z[1..]))
    else Line(FirstLine(t), NextLine(t))
  }

  function Rest(s: Start): string {
    if s.Over? then "" else s.rest
  }

  lemma RestShorter(t: string)
    ensures t != "" ==> |Rest(StartOf(t))| < |t|
  {
    if t != "" {
      assert t == FirstLine(t) + NextLine(t);
      if HEAD <= t && Close(t[|HEAD|..]).Some? {
        var z := Close(t[|HEAD|..]).value;
        assert z[1..] == FirstLine(z[1..]) + NextLine(z[1..]);
      }
    }
  }

  /** `t` is at a line start. What follows a closing parenthesis on its line cannot start another
      block. */
  function Scan(t: string): (segs: seq<Segment>)
    decreases |t|
  {
    RestShorter(t);
    match StartOf(t)
    case Over => []
    case Line(l, rest) => [Plain(l)] + Scan(rest)
    case Closed(b, rest) => [Block(b)] + Scan(rest)
    case Mid(b, l, rest) => [Block(b), Plain(l)] + Scan(rest)
  }

  lemma {:induction false} BeforeCloses(x: string)
    requires Close(x).Some?
    ensures x == BeforeClose(x) + Close(x).value
    ensures CompleteLines(BeforeClose(x)) && Close(BeforeClose(x)) == None
    decreases |x|
  {
    if x[0] != ')' {
      var l, r := FirstLine(x), NextLine(x);
      assert x == l + r && r != "";
      BeforeCloses(r);
      Assoc(l, BeforeClose(r), Close(r).value);
      LineClosesNothing(x);
      CloseLines(l, BeforeClose(r));
      LinesAppend(l, BeforeClose(r));
    }
  }

  lemma LinesAppend(l: string, q: string)
    requires CompleteLines(l) && CompleteLines(q)
    ensures CompleteLines(l + q)
  {}

  lemma LineClosesNothing(t: string)
    requires NextLine(t) != "" && t[0] != ')'
    ensures CompleteLines(FirstLine(t)) && Close(FirstLine(t)) == None
  {
    LineBreakLast(t);
  }

  lemma LineBreakLast(t: string)
    requires NextLine(t) != ""
    ensures NextLine(FirstLine(t)) == "" && FirstLine(t) != ""
    ensures FirstLine(t)[0] == t[0]
    ensures CompleteLines(FirstLine(t)) && '\n' in t
  {
    if t[0] == '\n' {
      assert "\n"[1..] == "";
    } else {
      LineBreakLast(t[1..]);
      assert FirstLine(t)[1..] == FirstLine(t[1..]);
    }
  }

  lemma {:induction false} FirstLineOf(l: string, r: string)
    requires l != "" && l[|l| - 1] == '\n' && '\n' !in l[..|l| - 1]
    ensures FirstLine(l + r) == l && NextLine(l + r) == r
  {
    assert (l + r)[1..] == l[1..] + r;
    if |l| > 1 {
      assert l[..|l| - 1][0] == l[0];
      assert l[1..][..|l| - 2] == l[..|l| - 1][1..];
      FirstLineOf(l[1..], r);
      assert [l[0]] + l[1..] == l;
    } else {
      assert l == "\n";
    }
  }

  lemma HeadIsLine(t: string)
    ensures HEAD <= t ==> FirstLine(t) == HEAD && NextLine(t) == t[|HEAD|..] && t == HEAD + t[|HEAD|..]
  {
    if HEAD <= t {
      assert t == HEAD + t[|HEAD|..];
      assert forall i :: 0 <= i < |HEAD| - 1 ==> HEAD[i] != '\n';
      FirstLineOf(HEAD, t[|HEAD|..]);
    }
  }

  /** A block as a scan cuts it out. */
  lemma CutBlock(p: string, end: string, z: string)
    requires CompleteLines(p) && Close(p) == None
    requires end == ")" || end == ")\n"
    ensures IsBlock(HEAD + p + end)
    ensures Close((HEAD + p + end)[|HEAD|..]) == Some(end)
  {
    Assoc(HEAD, p, end);
    Slices(HEAD, p + end, |HEAD|);
    assert (HEAD + (p + end))[|HEAD|..] == p + end;
    CloseLines(p, end);
  }

  ghost predicate StartOk(s: Start, t: string) {
    match s
    case Over => t == ""
    case Line(l, rest) => t == l + rest
    case Closed(b, rest) =>
      && t == b + rest && IsBlock(b)
      && (Close(b[|HEAD|..]) == Some(")\n") || (Close(b[|HEAD|..]) == Some(")") && rest == ""))
    case Mid(b, l, rest) =>
      && t == b + (l + rest) && IsBlock(b) && Close(b[|HEAD|..]) == Some(")")
      && l == FirstLine(l + rest) && rest == NextLine(l + rest) && l != "" && l[0] != '\n'
  }

  /** The start of a text gives the text back, and what it calls a block is one. */
  lemma StartSplits(t: string)
    ensures StartOk(StartOf(t), t)
  {
    HeadIsLine(t);
    if HEAD <= t && Close(t[|HEAD|..]).Some? {
      var x := t[|HEAD|..];
      var z := Close(x).value;
      var p := BeforeClose(x);
      BeforeCloses(x);
      Assoc(HEAD, p, z);
      assert t == HEAD + p + z;
      if ")\n" <= z {
        CutBlock(p, ")\n", z);
        ClosedStart(t, HEAD + p, z);
      } else {
        CutBlock(p, ")", z);
        MidStart(t, HEAD + p, z);
      }
    }
  }

  lemma ClosedStart(t: string, b: string, z: string)
    requires t == b + z && ")\n" <= z
    ensures t == b + ")\n" + z[2..]
  {
    assert z == ")\n" + z[2..];
  }

  lemma MidStart(t: string, b: string, z: string)
    requires t == b + z && z != "" && z[0] == ')' && !(")\n" <= z)
    ensures t == b + ")" + z[1..]
    ensures z[1..] == FirstLine(z[1..]) + NextLine(z[1..])
    ensures |z| > 1 ==> FirstLine(z[1..]) != "" && FirstLine(z[1..])[0] != '\n'
    ensures |z| == 1 ==> t == b + ")"
  {
    assert z == ")" + z[1..];
    if |z| > 1 {
      assert z[..2] == [z[0], z[1]];
    }
  }

  lemma {:induction false} JoinScan(t: string)
    ensures Join(Scan(t)) == t
    decreases |t|
  {
    StartSplits(t);
    RestShorter(t);
    if t != "" { JoinScan(Rest(StartOf(t))); }
    match StartOf(t)
    case Over =>
    case Line(l, rest) => JoinCons(Plain(l), Scan(rest));
    case Closed(b, rest) => JoinCons(Block(b), Scan(rest));
    case Mid(b, l, rest) =>
      JoinCons(Plain(l), Scan(rest));
      JoinCons(Block(b), [Plain(l)] + Scan(rest));
      assert [Block(b), Plain(l)] + Scan(rest) == [Block(b)] + ([Plain(l)] + Scan(rest));
  }

  lemma JoinCons(s: Segment, segs: seq<Segment>)
    ensures Join([s] + segs) == s.text + Join(segs)
  {
    assert ([s] + segs)[1..] == segs;
  }

  /** Rewriting the blocks of a scan. */
  function MapBlocks(segs: seq<Segment>, e: string -> string): (r: seq<Segment>)
    ensures |r| == |segs|
    ensures forall i :: 0 <= i < |segs| ==>
      r[i] == if segs[i].Block? then Block(e(segs[i].text)) else segs[i]
  {
    seq(|segs|, i requires 0 <= i < |segs| =>
      if segs[i].Block? then Block(e(segs[i].text)) else segs[i])
  }

  /** An edit that turns blocks into blocks with the same end. */
  ghost predicate KeepsEnds(e: string -> string, segs: seq<Segment>) {
    forall i :: 0 <= i < |segs| && segs[i].Block? ==> SameEnds(segs[i].text, e(segs[i].text))
  }

  ghost predicate SameEnds(b: string, b': string) {
    IsBlock(b) && IsBlock(b') && Close(b'[|HEAD|..]) == Close(b[|HEAD|..])
  }

  ghost predicate AllPlain(segs: seq<Segment>) {
    forall i :: 0 <= i < |segs| ==> segs[i].Plain?
  }

  lemma {:induction false} NoBlocks(t: string)
    requires Close(t) == None
    ensures AllPlain(Scan(t))
    decreases |t|
  {
    if t != "" {
      assert t == FirstLine(t) + NextLine(t);
      PlainStart(t);
      hide Close, StartOf, HEAD, FirstLine, NextLine;
      NoBlocks(NextLine(t));
    }
  }

  /** Where nothing closes, a text starts with a plain line. */
  lemma PlainStart(t: string)
    requires t != "" && Close(t) == None
    ensures StartOf(t) == Line(FirstLine(t), NextLine(t)) && Close(NextLine(t)) == None && FirstLine(t) != ""
  {
    HeadIsLine(t);
  }

  lemma KeepsTail(e: string -> string, pre: seq<Segment>, segs: seq<Segment>)
    requires KeepsEnds(e, pre + segs)
    ensures KeepsEnds(e, pre) && KeepsEnds(e, segs)
  {
    forall i | 0 <= i < |segs| && segs[i].Block? ensures SameEnds(segs[i].text, e(segs[i].text)) {
      assert (pre + segs)[|pre| + i] == segs[i];
    }
    forall i | 0 <= i < |pre| && pre[i].Block? ensures SameEnds(pre[i].text, e(pre[i].text)) {
      assert (pre + segs)[i] == pre[i];
    }
  }

  /** How the text behind a block's head line continues when more text follows the block. */
  lemma BlockFollowed(b: string, y: string)
    requires IsBlock(b)
    ensures var x := b[|HEAD|..];
            && HEAD <= b + y && Close((b + y)[|HEAD|..]) == Some(Close(x).value + y)
            && HEAD + BeforeClose((b + y)[|HEAD|..]) + Close(x).value == b
  {
    var x := b[|HEAD|..];
    HeadIsLine(b);
    Slices(b, y, |HEAD|);
    BeforeCloses(x);
    CloseAppend(x, y);
    AppendBefore(x, y);
    Assoc(HEAD, BeforeClose(x), Close(x).value);
  }

  /** A text that starts with a block closed by a full line is scanned as that block and the rest. */
  lemma StartClosed(b: string, r: string)
    requires IsBlock(b)
    requires Close(b[|HEAD|..]) == Some(")\n") || (Close(b[|HEAD|..]) == Some(")") && r == "")
    ensures Scan(b + r) == [Block(b)] + Scan(r)
  {
    BlockFollowed(b, r);
    if Close(b[|HEAD|..]) == Some(")\n") {
      Slices(")\n", r, 2);
      assert (")\n" + r)[2..] == r;
      assert StartOf(b + r) == Closed(b, r);
    } else {
      assert ")" + r == ")" && b + r == b;
      assert StartOf(b + r) == Closed(b, "");
    }
  }

  /** The same for a block whose closing line goes on. */
  lemma StartMid(b: string, l: string, r: string)
    requires IsBlock(b) && Close(b[|HEAD|..]) == Some(")")
    requires l != "" && l[0] != '\n' && FirstLine(l + r) == l && NextLine(l + r) == r
    ensures Scan(b + (l + r)) == [Block(b), Plain(l)] + Scan(r)
  {
    var y := l + r;
    BlockFollowed(b, y);
    var z := ")" + y;
    assert z[1..] == y && z[1] == l[0];
    assert StartOf(b + y) == Mid(b, l, r);
  }

  lemma AppendBefore(x: string, r: string)
    requires Close(x).Some?
    ensures BeforeClose(x + r) == BeforeClose(x)
    decreases |x|
  {
    if x[0] != ')' {
      assert x == FirstLine(x) + NextLine(x) && NextLine(x) != "";
      LineBreakLast(x);
      NextLineConcat(x, r);
      FirstLineConcat(x, r);
      AppendBefore(NextLine(x), r);
    }
  }

  lemma {:induction false} FirstLineConcat(x: string, r: string)
    requires '\n' in x
    ensures FirstLine(x + r) == FirstLine(x)
  {
    assert (x + r)[1..] == x[1..] + r;
    if x[0] != '\n' { FirstLineConcat(x[1..], r); }
  }

  /** The rest of a text may change behind its first line. */
  lemma LineKept(l: string, r: string, r': string)
    requires FirstLine(l + r) == l && NextLine(l + r) == r && (r == "" ==> r' == "")
    ensures FirstLine(l + r') == l && NextLine(l + r') == r'
  {
    if r != "" {
      LineBreakLast(l + r);
      NextLineConcat(l, r);
      NextLineConcat(l, r');
      BreakIn(l);
      FirstLineConcat(l, r);
      FirstLineConcat(l, r');
    }
  }

  lemma BreakIn(l: string)
    requires l != "" && CompleteLines(l)
    ensures '\n' in l
  {
    assert l[|l| - 1] == '\n';
  }

  /** A plain line stays plain when the blocks behind it are edited. */
  lemma StartLine(l: string, r: string, r': string)
    requires StartOf(l + r) == Line(l, r) && l + r != ""
    requires r == "" ==> r' == ""
    requires Close(r) == None ==> r' == r
    ensures Scan(l + r') == [Plain(l)] + Scan(r')
  {
    LineKept(l, r, r');
    HeadIsLine(l + r);
    HeadIsLine(l + r');
    if HEAD <= l + r' {
      assert l == HEAD;
      assert HEAD <= l + r;
    }
    assert FirstLine(l + r) != "";
    assert StartOf(l + r') == Line(l, r');
  }

  /** What an edited scan looks like, piece by piece. */
  lemma MapStart(t: string, e: string -> string)
    requires t != "" && KeepsEnds(e, Scan(t))
    ensures KeepsEnds(e, Scan(Rest(StartOf(t))))
    ensures var segs' := MapBlocks(Scan(Rest(StartOf(t))), e);
            match StartOf(t)
               case Over => true
               case Line(l, _) => MapBlocks(Scan(t), e) == [Plain(l)] + segs'
               case Closed(b, _) => SameEnds(b, e(b)) && MapBlocks(Scan(t), e) == [Block(e(b))] + segs'
               case Mid(b, l, _) =>
                 SameEnds(b, e(b)) && MapBlocks(Scan(t), e) == [Block(e(b)), Plain(l)] + segs'
  {
    var rest := Rest(StartOf(t));
    match StartOf(t)
    case Over =>
    case Line(l, _) =>
      MapOne(Plain(l), e);
      MapPrefix([Plain(l)], Scan(rest), e);
    case Closed(b, _) =>
      MapOne(Block(b), e);
      MapPrefix([Block(b)], Scan(rest), e);
    case Mid(b, l, _) =>
      MapTwo(b, l, e);
      MapPrefix([Block(b), Plain(l)], Scan(rest), e);
  }

  lemma MapOne(s: Segment, e: string -> string)
    ensures MapBlocks([s], e) == [if s.Block? then Block(e(s.text)) else s]
  {}

  lemma MapTwo(b: string, l: string, e: string -> string)
    ensures MapBlocks([Block(b), Plain(l)], e) == [Block(e(b)), Plain(l)]
  {}

  lemma MapPrefix(pre: seq<Segment>, segs: seq<Segment>, e: string -> string)
    requires KeepsEnds(e, pre + segs) && pre != []
    ensures KeepsEnds(e, segs)
    ensures pre[0].Block? ==> SameEnds(pre[0].text, e(pre[0].text))
    ensures MapBlocks(pre + segs, e) == MapBlocks(pre, e) + MapBlocks(segs, e)
  {
    KeepsTail(e, pre, segs);
  }

  lemma JoinTwo(b: string, l: string, segs: seq<Segment>)
    ensures Join([Block(b), Plain(l)] + segs) == b + (l + Join(segs))
  {
    JoinCons(Plain(l), segs);
    JoinCons(Block(b), [Plain(l)] + segs);
    assert [Block(b), Plain(l)] + segs == [Block(b)] + ([Plain(l)] + segs);
  }

  /** Scanning the edited text finds the edited blocks again, and nothing else. */
  lemma {:induction false} Rescan(t: string, e: string -> string)
    requires KeepsEnds(e, Scan(t))
    ensures Scan(Join(MapBlocks(Scan(t), e))) == MapBlocks(Scan(t), e)
    decreases |t|
  {
    if t != "" {
      StartSplits(t);
      RestShorter(t);
      MapStart(t, e);
      var rest := Rest(StartOf(t));
      Rescan(rest, e);
      var segs' := MapBlocks(Scan(rest), e);
      var r' := Join(segs');
      match StartOf(t)
      case Line(l, _) =>
        if Close(rest) == None { Unchanged(rest, e); }
        JoinCons(Plain(l), segs');
        StartLine(l, rest, r');
      case Closed(b, _) =>
        JoinCons(Block(e(b)), segs');
        StartClosed(e(b), r');
      case Mid(b, l, _) =>
        JoinTwo(e(b), l, segs');
        LineKept(l, rest, r');
        StartMid(e(b), l, r');
    }
  }

  lemma Unchanged(t: string, e: string -> string)
    requires Close(t) == None
    ensures Join(MapBlocks(Scan(t), e)) == t
  {
    NoBlocks(t);
    assert MapBlocks(Scan(t), e) == Scan(t);
    JoinScan(t);
  }
}
