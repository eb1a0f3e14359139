/** `re.search` for an expression `^\s*X...` in MULTILINE mode. Only the first non-space character
    of a line can begin X, so the search goes from one such character to the next. Whether X
    matches there is the parameter `m`; it may look past the end of its line. */
module LineSearch {
  import opened Text

  /** The first match: the complete lines before it, the white space `^(\s*)` captures, and the
      text from X on. */
  datatype Hit = Hit(before: string, indent: string, at: string)

  function Find(t: string, m: string -> bool): (r: Option<Hit>)
    decreases |t|
  {
    var u := SkipSpace(t);
    if u == "" then None
    else if m(u) then Some(Hit("", LeadingSpace(t), u))
    else
      match Find(NextLine(u), m)
      case None => None
      case Some(h) => Some(h.(before := LeadingSpace(t) + FirstLine(u) + h.before))
  }

  ghost predicate HitIn(h: Hit, t: string, m: string -> bool) {
    && t == h.before + h.indent + h.at
    && CompleteLines(h.before) && AllSpace(h.indent)
    && h.at != "" && !IsSpace(h.at[0]) && m(h.at)
  }

  lemma {:induction false} FindSplits(t: string, m: string -> bool)
    ensures Find(t, m).Some? ==> HitIn(Find(t, m).value, t, m)
    decreases |t|
  {
    var u := SkipSpace(t);
    if u != "" && !m(u) {
      FindSplits(NextLine(u), m);
      if Find(NextLine(u), m).Some? {
        var h := Find(NextLine(u), m).value;
        var lead := LeadingSpace(t) + FirstLine(u);
        LineSplits(t);
        assert CompleteLines(lead) by { assert h.at != ""; }
        Prepend(lead, NextLine(u), h, m);
        assert HitIn(h.(before := lead + h.before), t, m);
      }
    }
  }

  lemma LineSplits(t: string)
    ensures t == LeadingSpace(t) + FirstLine(SkipSpace(t)) + NextLine(SkipSpace(t))
  {}

  lemma Prepend(lines: string, t: string, h: Hit, m: string -> bool)
    requires HitIn(h, t, m) && CompleteLines(lines)
    ensures HitIn(h.(before := lines + h.before), lines + t, m)
  {
    assert lines + (h.before + h.indent + h.at) == lines + h.before + h.indent + h.at;
  }
}

/** One-field regular expressions over an `http_file` block (rusty_v8_module_bazel.py). */
module ModuleFields {
  import opened Text
  import opened LineSearch

  /** What a field expression has read once it is past `field = "value",`. */
  datatype Parsed = Unread | Read(value: string, after: string)

  /** The three expressions of the script; they differ only in the value and in what may follow. */
  datatype Pattern =
    | StringField   // ^\s*F\s*=\s*"([^"]+)",\s*$
    | HexField      // ^(\s*)F\s*=\s*"[0-9a-f]+",\s*$
    | LineField     // ^(\s*)F\s*=\s*"[^"]+",\n

  /** Length of the longest prefix without a double quote. */
  function Unquoted(t: string): (n: nat)
    ensures n <= |t| && '"' !in t[..n]
    ensures n < |t| ==> t[n] == '"'
  {
    if t == "" || t[0] == '"' then 0 else
      var n := 1 + Unquoted(t[1..]);
      assert t[..n] == [t[0]] + t[1..][..n - 1];
      n
  }

  lemma {:induction false} UnquotedConcat(x: string, s: string)
    ensures Unquoted(x + s) == if Unquoted(x) < |x| then Unquoted(x) else |x| + Unquoted(s)
  {
    if x == "" {
      assert x + s == s;
    } else {
      assert (x + s)[1..] == x[1..] + s;
      UnquotedConcat(x[1..], s);
    }
  }

  lemma UnquotedIs(v: string, s: string)
    requires '"' !in v
    ensures Unquoted(v + "\"" + s) == |v|
  {
    UnquotedConcat(v, "\"" + s);
    assert v + ("\"" + s) == v + "\"" + s;
  }

  /** `\s*$`: the white space after the comma reaches a line end or the end of the text. */
  predicate EndsLine(after: string) {
    SkipSpace(after) == "" || '\n' in LeadingSpace(after)
  }

  /** What is left once the greedy `\s*$` has been consumed: the white space is swallowed up to
      its last line break, or completely when nothing else follows. */
  function AfterEndsLine(after: string): (rest: string)
    requires EndsLine(after)
  {
    if SkipSpace(after) == "" then "" else
      LastBreak(LeadingSpace(after)) + SkipSpace(after)
  }

  /** The suffix of `w` from its last line break on. */
  function LastBreak(w: string): (s: string)
    requires '\n' in w
    ensures s != "" && s[0] == '\n' && '\n' !in s[1..]
    ensures |s| <= |w| && s == w[|w| - |s|..]
  {
    if '\n' in w[1..] then LastBreak(w[1..]) else w
  }

  /** Reads `field\s*=\s*"value",` at the start of `u`. */
  function ReadField(u: string, field: string): (p: Parsed)
    ensures p.Read? ==> '"' !in p.value && p.value != "" && field <= u
  {
    if !(field <= u) then Unread else
      var a := SkipSpace(u[|field|..]);
      if a == "" || a[0] != '=' then Unread else
        var b := SkipSpace(a[1..]);
        if b == "" || b[0] != '"' then Unread else
          var n := Unquoted(b[1..]);
          var c := b[1..][n..];
          if n == 0 || |c| < 2 || c[1] != ',' then Unread else Read(b[1..][..n], c[2..])
  }

  predicate Accepts(p: Parsed, pattern: Pattern) {
    && p.Read?
    && match pattern
       case StringField => EndsLine(p.after)
       case HexField => Hex(p.value) && EndsLine(p.after)
       case LineField => p.after != "" && p.after[0] == '\n'
  }

  /** `re.search(...)` for one of the expressions: the match decision at a field name. */
  function Matcher(field: string, pattern: Pattern): string -> bool {
    u => Accepts(ReadField(u, field), pattern)
  }

  /** `string_field`: the captured value of the first match, if any. */
  function StringValue(block: string, field: string): (r: Option<string>) {
    match Find(block, Matcher(field, StringField))
    case None => None
    case Some(h) =>
      FindSplits(block, Matcher(field, StringField));
      Some(ReadField(h.at, field).value)
  }
}
