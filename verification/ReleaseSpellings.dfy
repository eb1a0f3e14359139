/** The versions, spelled out: what the normaliser takes and gives, what the printer prints, and which tags
    the publisher recognises. */
module ReleaseSpellings {
  import opened Text
  import opened VersionGrammar
  import opened ReleaseVersion
  import opened ReleaseNormal
  import opened ReleaseTags

  // --- bases ---

  /** Digits and single dots, with a digit at both ends. */
  predicate DottedDigits(s: string) {
    && s != "" && IsDigit(s[0]) && IsDigit(s[|s| - 1])
    && (forall i :: 0 <= i < |s| ==> IsDigit(s[i]) || s[i] == '.')
    && forall i :: 0 <= i < |s| - 1 && s[i] == '.' ==> s[i + 1] != '.'
  }

  lemma BaseMeans(s: string)
    ensures Base(s) <==> DottedDigits(s)
  {
    if Base(s) {
      var parts :| parts != [] && AllDigits(parts) && s == JoinDots(parts);
      JoinedDotted(parts);
    }
    if DottedDigits(s) {
      var parts := DottedParts(s);
    }
  }

  lemma {:induction false} JoinedDotted(parts: seq<string>)
    requires parts != [] && AllDigits(parts)
    ensures DottedDigits(JoinDots(parts))
  {
    var d := parts[0];
    assert Digits(d);
    if |parts| > 1 {
      var rest := JoinDots(parts[1..]);
      JoinedDotted(parts[1..]);
      var s := d + "." + rest;
      assert s == JoinDots(parts);
      assert s[|d|] == '.' && forall i :: 0 <= i < |d| ==> s[i] == d[i];
      assert forall i :: 0 <= i < |rest| ==> s[|d| + 1 + i] == rest[i];
    }
  }

  lemma {:induction false} DottedParts(s: string) returns (parts: seq<string>)
    requires DottedDigits(s)
    ensures parts != [] && AllDigits(parts) && s == JoinDots(parts)
    decreases |s|
  {
    if k :| 0 <= k < |s| && s[k] == '.' && forall i :: 0 <= i < k ==> s[i] != '.' {
      var rest := s[k + 1..];
      assert rest[0] == s[k + 1] && rest[|rest| - 1] == s[|s| - 1];
      var more := DottedParts(rest);
      parts := [s[..k]] + more;
      assert parts[1..] == more && s == s[..k] + "." + rest;
    } else {
      NoDot(s, |s|);
      parts := [s];
    }
  }

  lemma {:induction false} NoDot(s: string, n: nat)
    requires n <= |s| && !exists k :: 0 <= k < |s| && s[k] == '.' && forall i :: 0 <= i < k ==> s[i] != '.'
    ensures forall i :: 0 <= i < n ==> s[i] != '.'
  {
    if n > 0 { NoDot(s, n - 1); }
  }

  // --- what is taken and given ---

  /** The text, possibly behind one of the prefixes. */
  predicate Behind(prefix: string) { prefix == "" || prefix == "v" || prefix == "rust-v" }

  lemma Taken(prefix: string, s: string, v: Version)
    requires Behind(prefix) && Accepts(s, v) && s != "" && IsDigit(s[0]) && IsDigit(s[|s| - 1])
    ensures Normalize(prefix + s) == Some(Python(v))
  {
    hide Accepts, Python, Normalize, Unprefixed, Strip;
    AcceptedCore(s, v);
    assert "" + s == s;
    if prefix == "v" {
      VCore(s);
      TakenCore("v" + s, s, v);
    }
  }

  lemma VCore(s: string)
    requires s != "" && IsDigit(s[|s| - 1])
    ensures Strip("v" + s) == "v" + s && Unprefixed("v" + s) == s
  {
    var t := "v" + s;
    assert t[0] == 'v' && t[|t| - 1] == s[|s| - 1];
    StripPlain(t);
    assert t[1..] == s && TAG_PREFIX[0] == 'r';
  }

  lemma TakenCore(t: string, s: string, v: Version)
    requires Strip(t) == t && Unprefixed(t) == s && Accepts(s, v)
    ensures Normalize(t) == Some(Python(v))
  {
    hide Accepts, Python, Substituted, Unprefixed;
    AcceptedTurns(s, v);
    AcceptsValid(s, v);
  }

  /** A normal form stays, behind any prefix. */
  lemma NormalStays(prefix: string, v: Version)
    requires Behind(prefix) && Valid(v)
    ensures Normalize(prefix + Python(v)) == Some(Python(v))
  {
    hide Normalize, Python;
    PythonPlain(v);
    AcceptsPlain(v);
    Taken(prefix, Python(v), v);
  }

  lemma AcceptsPlain(v: Version)
    requires Valid(v)
    ensures Accepts(Python(v), v)
  {}

  lemma Numbered(prefix: string, b: string, word: string, n: string, v: Version)
    requires Behind(prefix) && Base(b) && Digits(n) && v.base == b && Valid(v) && v.post.None?
    requires (word == "alpha" && v.kind == Alpha(n)) || (word == "beta" && v.kind == Beta(n))
             || (word == "rc" && v.kind == Candidate(n))
    ensures Normalize(prefix + (b + ("-" + (word + n)))) == Some(Python(v))
    ensures Normalize(prefix + (b + ("-" + (word + ("." + n))))) == Some(Python(v))
  {
    hide Normalize, Python, Base;
    BasePlain(b);
    var s, t := b + ("-" + (word + n)), b + ("-" + (word + ("." + n)));
    Assoc(b, "-", word + n);
    Assoc(b, "-", word + ("." + n));
    assert Undot(n) == n && Undot("." + n) == n;
    assert MatchOne(word, s, b, n) && MatchOne(word, t, b, "." + n);
    assert s[|s| - 1] == n[|n| - 1] && t[|t| - 1] == n[|n| - 1] && s[0] == b[0] == t[0];
    Taken(prefix, s, v);
    Taken(prefix, t, v);
  }

  lemma Hotfixed(prefix: string, b: string, d: string, e: string)
    requires Behind(prefix) && Base(b) && Digits(d) && Digits(e)
    ensures var v := Version(b, Alpha(d), Some(e));
            && Normalize(prefix + (b + ("-" + ("alpha" + (d + ("." + e)))))) == Some(Python(v))
            && Normalize(prefix + (b + ("-" + ("alpha" + ("." + (d + ("." + e))))))) == Some(Python(v))
  {
    hide Normalize, Python, Base;
    BasePlain(b);
    var v := Version(b, Alpha(d), Some(e));
    var u, w := d + ("." + e), "." + (d + ("." + e));
    var s, t := b + ("-" + ("alpha" + u)), b + ("-" + ("alpha" + w));
    Assoc(b, "-", "alpha" + u);
    Assoc(b, "-", "alpha" + w);
    assert Undot(u) == u && Undot(w) == u;
    assert MatchTwo(s, b, u, d, e) && MatchTwo(t, b, w, d, e);
    assert s[|s| - 1] == e[|e| - 1] && t[|t| - 1] == e[|e| - 1] && s[0] == b[0] == t[0];
    Taken(prefix, s, v);
    Taken(prefix, t, v);
  }

  /** The normaliser on every accepted shape with a number: the dot before it is optional. */
  lemma NormalizerSpelled(prefix: string, b: string, d: string, e: string)
    requires Behind(prefix) && Base(b) && Digits(d) && Digits(e)
    ensures Normalize(prefix + b) == Some(b)
    ensures Normalize(prefix + (b + ("-alpha" + d))) == Some(b + ("a" + d))
    ensures Normalize(prefix + (b + ("-alpha." + d))) == Some(b + ("a" + d))
    ensures Normalize(prefix + (b + ("-beta" + d))) == Some(b + ("b" + d))
    ensures Normalize(prefix + (b + ("-beta." + d))) == Some(b + ("b" + d))
    ensures Normalize(prefix + (b + ("-rc" + d))) == Some(b + ("rc" + d))
    ensures Normalize(prefix + (b + ("-rc." + d))) == Some(b + ("rc" + d))
    ensures Normalize(prefix + (b + ("-alpha" + d + "." + e))) == Some(b + ("a" + d + ".post" + e))
    ensures Normalize(prefix + (b + ("-alpha." + d + "." + e))) == Some(b + ("a" + d + ".post" + e))
  {
    hide Normalize, Base, Behind;
    SpelledPython(b, d, e);
    assert "" + b == b;
    NormalStays(prefix, Version(b, Final, None));
    Numbered(prefix, b, "alpha", d, Version(b, Alpha(d), None));
    Numbered(prefix, b, "beta", d, Version(b, Beta(d), None));
    Numbered(prefix, b, "rc", d, Version(b, Candidate(d), None));
    Hotfixed(prefix, b, d, e);
    SpelledWords(d, e);
  }

  lemma SpelledWords(d: string, e: string)
    ensures "-" + ("alpha" + d) == "-alpha" + d && "-" + ("alpha" + ("." + d)) == "-alpha." + d
    ensures "-" + ("beta" + d) == "-beta" + d && "-" + ("beta" + ("." + d)) == "-beta." + d
    ensures "-" + ("rc" + d) == "-rc" + d && "-" + ("rc" + ("." + d)) == "-rc." + d
    ensures "-" + ("alpha" + (d + ("." + e))) == "-alpha" + d + "." + e
    ensures "-" + ("alpha" + ("." + (d + ("." + e)))) == "-alpha." + d + "." + e
  {}

  /** The PEP 440 texts. */
  lemma SpelledPython(b: string, d: string, e: string)
    ensures Python(Version(b, Final, None)) == b
    ensures Python(Version(b, Final, Some(e))) == b + (".post" + e)
    ensures Python(Version(b, Alpha(d), None)) == b + ("a" + d)
    ensures Python(Version(b, Alpha(d), Some(e))) == b + ("a" + d + ".post" + e)
    ensures Python(Version(b, Beta(d), None)) == b + ("b" + d)
    ensures Python(Version(b, Beta(d), Some(e))) == b + ("b" + d + ".post" + e)
    ensures Python(Version(b, Candidate(d), None)) == b + ("rc" + d)
    ensures Python(Version(b, Candidate(d), Some(e))) == b + ("rc" + d + ".post" + e)
  {
    assert "" + "" == "" && b + "" == b && "" + (".post" + e) == ".post" + e;
    assert "a" + d + "" == "a" + d && "b" + d + "" == "b" + d && "rc" + d + "" == "rc" + d;
    assert "a" + d + (".post" + e) == "a" + d + ".post" + e;
    assert "b" + d + (".post" + e) == "b" + d + ".post" + e;
    assert "rc" + d + (".post" + e) == "rc" + d + ".post" + e;
  }

  // --- what is printed ---

  /** The tags: a pre-release gets its full word and a dot, an alpha hotfix a second number; a post-release of
      anything else keeps its spelling. */
  lemma TagSpelled(b: string, d: string, e: string)
    requires Base(b) && Digits(d) && Digits(e)
    ensures CodexReleaseTag(b) == Some("rust-v" + b)
    ensures CodexReleaseTag(b + ("a" + d)) == Some("rust-v" + (b + ("-alpha." + d)))
    ensures CodexReleaseTag(b + ("a" + d + ".post" + e)) == Some("rust-v" + (b + ("-alpha." + d + "." + e)))
    ensures CodexReleaseTag(b + ("b" + d)) == Some("rust-v" + (b + ("-beta." + d)))
    ensures CodexReleaseTag(b + ("rc" + d)) == Some("rust-v" + (b + ("-rc." + d)))
    ensures CodexReleaseTag(b + (".post" + e)) == Some("rust-v" + (b + (".post" + e)))
    ensures CodexReleaseTag(b + ("b" + d + ".post" + e)) == Some("rust-v" + (b + ("b" + d + ".post" + e)))
    ensures CodexReleaseTag(b + ("rc" + d + ".post" + e)) == Some("rust-v" + (b + ("rc" + d + ".post" + e)))
  {
    hide CodexReleaseTag, Python, Base;
    SpelledPython(b, d, e);
    SpelledRust(b, d, e);
    TagOf(Version(b, Final, None));
    TagOf(Version(b, Alpha(d), None));
    TagOf(Version(b, Alpha(d), Some(e)));
    TagOf(Version(b, Beta(d), None));
    TagOf(Version(b, Candidate(d), None));
    TagOf(Version(b, Final, Some(e)));
    TagOf(Version(b, Beta(d), Some(e)));
    TagOf(Version(b, Candidate(d), Some(e)));
  }

  lemma TagOf(v: Version)
    requires Valid(v)
    ensures CodexReleaseTag(Python(v)) == Some("rust-v" + Rust(v))
  {
    hide Normalize, Python, Rust;
    NormalizeRust(v);
    ReleaseVersionIs(v);
  }

  lemma SpelledRust(b: string, d: string, e: string)
    ensures Rust(Version(b, Final, None)) == b
    ensures Rust(Version(b, Alpha(d), None)) == b + ("-alpha." + d)
    ensures Rust(Version(b, Alpha(d), Some(e))) == b + ("-alpha." + d + "." + e)
    ensures Rust(Version(b, Beta(d), None)) == b + ("-beta." + d)
    ensures Rust(Version(b, Candidate(d), None)) == b + ("-rc." + d)
    ensures Rust(Version(b, Final, Some(e))) == Python(Version(b, Final, Some(e)))
    ensures Rust(Version(b, Beta(d), Some(e))) == Python(Version(b, Beta(d), Some(e)))
    ensures Rust(Version(b, Candidate(d), Some(e))) == Python(Version(b, Candidate(d), Some(e)))
  {
    assert b + "" == b;
  }

  // --- nothing else is taken ---

  /** A text and its normal form, spelled out for a base, a number and a second number. */
  ghost predicate Spelling(s: string, n: string, b: string, d: string, e: string) {
    && Base(b) && Digits(d) && Digits(e)
    && (|| (s == n && (n == b || n == b + (".post" + e)))
        || (s == n && (n == b + ("a" + d) || n == b + ("a" + d + ".post" + e)))
        || (s == n && (n == b + ("b" + d) || n == b + ("b" + d + ".post" + e)))
        || (s == n && (n == b + ("rc" + d) || n == b + ("rc" + d + ".post" + e)))
        || (n == b + ("a" + d) && (s == b + ("-alpha" + d) || s == b + ("-alpha." + d)))
        || (n == b + ("a" + d + ".post" + e)
            && (s == b + ("-alpha" + d + "." + e) || s == b + ("-alpha." + d + "." + e)))
        || (n == b + ("b" + d) && (s == b + ("-beta" + d) || s == b + ("-beta." + d)))
        || (n == b + ("rc" + d) && (s == b + ("-rc" + d) || s == b + ("-rc." + d)))
        || (n == b + ("b" + d) && (s == b + ("-bet-alpha" + d) || s == b + ("-bet-alpha." + d))))
  }

  /** Whatever is accepted has, stripped and without its prefix, one of these spellings. */
  lemma OnlySpellings(version: string)
    requires Normalize(version).Some?
    ensures exists b, d, e :: Spelling(Unprefixed(Strip(version)), Normalize(version).value, b, d, e)
  {
    hide Accepts, Python, Normalize, Spelling, Unprefixed, Strip;
    var n := Normalize(version).value;
    AcceptedExactly(version, n);
    var core := Unprefixed(Strip(version));
    var v :| Accepts(core, v) && n == Python(v);
    var b, d, e := AcceptedSpelling(core, v);
  }

  lemma AcceptedSpelling(core: string, v: Version) returns (b: string, d: string, e: string)
    requires Accepts(core, v)
    ensures Spelling(core, Python(v), b, d, e)
  {
    hide Python, Base, HotfixShape, WordShape, StrayShape;
    assert Digits("0");
    b, d, e := v.base, if v.kind.Final? then "0" else v.kind.n, if v.post.Some? then v.post.value else "0";
    SpelledPython(b, d, e);
    if core == Python(v) {
    } else if HotfixShape(core, v) {
      HotfixSpelling(core, v);
    } else if v.kind.Alpha? && WordShape("alpha", core, v) {
      WordSpelling("alpha", core, v);
      SpelledWords(d, e);
    } else if v.kind.Beta? && WordShape("beta", core, v) {
      WordSpelling("beta", core, v);
      SpelledWords(d, e);
    } else if v.kind.Candidate? && WordShape("rc", core, v) {
      WordSpelling("rc", core, v);
      SpelledWords(d, e);
    } else {
      StraySpelling(core, v);
    }
  }

  lemma WordSpelling(word: string, core: string, v: Version)
    requires !v.kind.Final? && WordShape(word, core, v)
    ensures v.post.None?
    ensures core == v.base + ("-" + (word + v.kind.n)) || core == v.base + ("-" + (word + ("." + v.kind.n)))
  {
    var u :| MatchOne(word, core, v.base, u) && Undot(u) == v.kind.n;
    UndotIs(u);
    Assoc(v.base, "-", word + u);
  }

  lemma UndotIs(u: string)
    ensures u == Undot(u) || u == "." + Undot(u)
  {}

  lemma HotfixSpelling(core: string, v: Version)
    requires HotfixShape(core, v)
    ensures v.kind.Alpha? && v.post.Some?
    ensures var d, e := v.kind.n, v.post.value;
            core == v.base + ("-alpha" + d + "." + e) || core == v.base + ("-alpha." + d + "." + e)
  {
    var d, e := v.kind.n, v.post.value;
    var u :| MatchTwo(core, v.base, u, d, e);
    UndotIs(u);
    Assoc(v.base, "-", "alpha" + u);
    SpelledWords(d, e);
  }

  lemma StraySpelling(core: string, v: Version)
    requires StrayShape(core, v)
    ensures v.kind.Beta? && v.post.None?
    ensures core == v.base + ("-bet-alpha" + v.kind.n) || core == v.base + ("-bet-alpha." + v.kind.n)
  {
    var n := v.kind.n;
    var u :| MatchOne("alpha", core, v.base + "-" + "bet", u) && Undot(u) == n;
    UndotIs(u);
    StrayText(v.base, u);
    StrayText(v.base, "." + n);
    assert "-bet-alpha" + ("." + n) == "-bet-alpha." + n;
  }

  lemma StrayText(b: string, u: string)
    ensures b + "-" + "bet" + "-" + ("alpha" + u) == b + ("-bet-alpha" + u)
  {}

  // --- the runtime versions ---

  /** A version of three numbers resolves, and so do its alphas and their post-releases: to these tags. */
  lemma ResolveSpelled(a: string, b: string, c: string, d: string, e: string)
    requires Digits(a) && Digits(b) && Digits(c) && Digits(d) && Digits(e)
    ensures var t := a + "." + b + "." + c;
            && Resolve(t) == Some((t, "rust-v" + t))
            && Resolve(t + ("a" + d)) == Some((t + ("a" + d), "rust-v" + (t + ("-alpha." + d))))
            && Resolve(t + ("a" + d + ".post" + e))
               == Some((t + ("a" + d + ".post" + e), "rust-v" + (t + ("-alpha." + d + "." + e))))
  {
    hide CodexReleaseTag, Python;
    var t := a + "." + b + "." + c;
    assert Triple(t);
    TripleBase(t);
    SpelledPython(t, d, e);
    TagSpelled(t, d, e);
    IsRuntime(Version(t, Final, None));
    IsRuntime(Version(t, Alpha(d), None));
    IsRuntime(Version(t, Alpha(d), Some(e)));
  }

  lemma IsRuntime(v: Version)
    requires Valid(v) && Runtime(v)
    ensures RuntimeVersion(Python(v))
  {}

  /** No other text resolves. */
  lemma ResolvesOnly(s: string)
    requires Resolve(s).Some?
    ensures exists a, b, c, d, e :: RuntimeSpelling(s, a, b, c, d, e)
  {
    hide CodexReleaseTag, Python;
    var v :| Valid(v) && Runtime(v) && s == Python(v);
    var a, b, c :| Digits(a) && Digits(b) && Digits(c) && v.base == a + "." + b + "." + c;
    assert Digits("0");
    var d := if v.kind.Final? then "0" else v.kind.n;
    var e := if v.post.Some? then v.post.value else "0";
    SpelledPython(v.base, d, e);
    assert RuntimeSpelling(s, a, b, c, d, e);
  }

  ghost predicate RuntimeSpelling(s: string, a: string, b: string, c: string, d: string, e: string) {
    && Digits(a) && Digits(b) && Digits(c) && Digits(d) && Digits(e)
    && var t := a + "." + b + "." + c;
       s == t || s == t + ("a" + d) || s == t + ("a" + d + ".post" + e)
  }

  // --- recognising the publisher's tags ---

  /** How many digits a text starts with. */
  function DigitsAhead(s: string): (n: nat)
    ensures n <= |s| && (forall i :: 0 <= i < n ==> IsDigit(s[i])) && (n < |s| ==> !IsDigit(s[n]))
  {
    if s == "" || !IsDigit(s[0]) then 0 else
      var n := 1 + DigitsAhead(s[1..]);
      assert forall i :: 1 <= i < n ==> s[i] == s[1..][i - 1];
      n
  }

  /** What follows a number, if there is one. */
  function AfterNumber(s: string): Option<string> {
    if DigitsAhead(s) == 0 then None else Some(s[DigitsAhead(s)..])
  }

  /** What follows a dot and a number. */
  function AfterDotted(s: Option<string>): Option<string> {
    if s.None? || s.value == "" || s.value[0] != '.' then None else AfterNumber(s.value[1..])
  }

  predicate SuffixRead(x: string) {
    || x == ""
    || ("-alpha" <= x && var y := Some(x[6..]);
          y.value == "" || AfterDotted(y) == Some("") || AfterDotted(AfterDotted(y)) == Some(""))
    || ("-beta" <= x && var y := Some(x[5..]); y.value == "" || AfterDotted(y) == Some(""))
  }

  /** `main` on its tag: the version, if the tag is one. */
  function VersionOfTag(tag: string): Option<string> {
    if !("rust-v" <= tag) then None
    else
      var x := AfterDotted(AfterDotted(AfterNumber(tag[6..])));
      if x.Some? && SuffixRead(x.value) then Some(tag[6..]) else None
  }

  lemma NumberRead(d: string, x: string)
    requires Digits(d) && (x == "" || !IsDigit(x[0]))
    ensures AfterNumber(d + x) == Some(x)
  {
    var s := d + x;
    assert forall i :: 0 <= i < |d| ==> s[i] == d[i];
    assert |d| < |s| ==> s[|d|] == x[0];
    assert DigitsAhead(s) == |d|;
  }

  lemma DottedRead(d: string, x: string)
    requires Digits(d) && (x == "" || !IsDigit(x[0]))
    ensures AfterDotted(Some("." + d + x)) == Some(x)
  {
    NumberRead(d, x);
    assert ("." + d + x)[1..] == d + x;
  }

  lemma NumberThere(s: string) returns (d: string)
    requires AfterNumber(s).Some?
    ensures Digits(d) && s == d + AfterNumber(s).value
  {
    d := s[..DigitsAhead(s)];
  }

  lemma DottedThere(s: string) returns (d: string)
    requires AfterDotted(Some(s)).Some?
    ensures Digits(d) && s == "." + d + AfterDotted(Some(s)).value
  {
    d := NumberThere(s[1..]);
    assert s == "." + s[1..];
  }

  lemma SuffixMeans(x: string)
    ensures SuffixRead(x) <==> TagSuffix(x)
  {
    if SuffixRead(x) { SuffixWasRead(x); }
    if TagSuffix(x) { SuffixIsRead(x); }
  }

  lemma SuffixWasRead(x: string)
    requires SuffixRead(x)
    ensures TagSuffix(x)
  {
    hide AfterDotted, AfterNumber, TagSuffix;
    if "-alpha" <= x {
      assert x == "-alpha" + x[6..] && x[1] == "-alpha"[1] != "-beta"[1];
      assert !("-beta" <= x);
      AlphaWasRead(x, x[6..]);
    } else if "-beta" <= x {
      assert x == "-beta" + x[5..];
      BetaWasRead(x, x[5..]);
    } else {
      NoSuffix();
    }
  }

  lemma AlphaWasRead(x: string, y: string)
    requires x == "-alpha" + y
    requires y == "" || AfterDotted(Some(y)) == Some("") || AfterDotted(AfterDotted(Some(y))) == Some("")
    ensures TagSuffix(x)
  {
    hide AfterDotted, AfterNumber, TagSuffix;
    if y == "" {
      assert x == "-alpha";
      PlainWords();
    } else {
      NothingAfter();
      var d := DottedThere(y);
      var z := AfterDotted(Some(y)).value;
      if z == "" {
        assert x == "-alpha." + d;
        AlphaSuffix(d);
      } else {
        var e := DottedThere(z);
        assert x == "-alpha." + d + "." + e;
        HotfixSuffix(d, e);
      }
    }
  }

  lemma BetaWasRead(x: string, y: string)
    requires x == "-beta" + y && (y == "" || AfterDotted(Some(y)) == Some(""))
    ensures TagSuffix(x)
  {
    hide AfterDotted, AfterNumber, TagSuffix;
    if y == "" {
      assert x == "-beta";
      PlainWords();
    } else {
      var d := DottedThere(y);
      assert x == "-beta." + d;
      BetaSuffix(d);
    }
  }

  lemma NothingAfter()
    ensures AfterDotted(None) == None
  {}

  lemma PlainWords()
    ensures TagSuffix("-alpha") && TagSuffix("-beta")
  {}

  lemma BetaSuffix(d: string)
    requires Digits(d)
    ensures TagSuffix("-beta." + d)
  {}

  lemma SuffixIsRead(x: string)
    requires TagSuffix(x)
    ensures SuffixRead(x)
  {
    if d :| Digits(d) && x == "-alpha." + d {
      AlphaIsRead(d);
    } else if d :| Digits(d) && x == "-beta." + d {
      BetaIsRead(d);
    } else if d, e :| Digits(d) && Digits(e) && x == "-alpha." + d + "." + e {
      HotfixIsRead(d, e);
    }
  }

  lemma AlphaIsRead(d: string)
    requires Digits(d)
    ensures SuffixRead("-alpha." + d)
  {
    hide AfterDotted, Digits;
    DottedRead(d, "");
    assert "." + d + "" == "." + d && ("-alpha." + d)[6..] == "." + d;
  }

  lemma BetaIsRead(d: string)
    requires Digits(d)
    ensures SuffixRead("-beta." + d)
  {
    hide AfterDotted, Digits;
    DottedRead(d, "");
    assert "." + d + "" == "." + d && ("-beta." + d)[5..] == "." + d;
  }

  lemma HotfixIsRead(d: string, e: string)
    requires Digits(d) && Digits(e)
    ensures SuffixRead("-alpha." + d + "." + e)
  {
    hide AfterDotted, Digits;
    assert !IsDigit('.');
    DottedRead(d, "." + e);
    DottedRead(e, "");
    assert "." + e + "" == "." + e && ("-alpha." + d + "." + e)[6..] == "." + d + ("." + e);
  }

  /** The recogniser finds exactly the tags of the grammar. */
  lemma TagRecognized(tag: string)
    ensures VersionOfTag(tag).Some? <==> ReleaseTag(tag)
    ensures VersionOfTag(tag).Some? ==> tag == "rust-v" + VersionOfTag(tag).value && TagVersion(VersionOfTag(tag).value)
  {
    hide SuffixRead, TagSuffix, AfterDotted, AfterNumber;
    if VersionOfTag(tag).Some? {
      var v := tag[6..];
      assert tag == "rust-v" + v;
      VersionWasRead(v);
    }
    if ReleaseTag(tag) {
      var v :| TagVersion(v) && tag == TAG_PREFIX + v;
      assert tag[6..] == v;
      VersionIsRead(v);
    }
  }

  lemma VersionWasRead(v: string)
    requires var x := AfterDotted(AfterDotted(AfterNumber(v))); x.Some? && SuffixRead(x.value)
    ensures TagVersion(v)
  {
    hide SuffixRead, TagSuffix, AfterDotted, AfterNumber, Triple, TagVersion;
    NothingAfter();
    var y := AfterNumber(v).value;
    var z := AfterDotted(Some(y)).value;
    var x := AfterDotted(Some(z)).value;
    var a := NumberThere(v);
    var b := DottedThere(y);
    var c := DottedThere(z);
    SuffixMeans(x);
    ThreeAndRest(a, b, c, x);
    TripleOf(a, b, c);
    InGrammar(a + "." + b + "." + c, x);
  }

  lemma ThreeAndRest(a: string, b: string, c: string, x: string)
    ensures a + ("." + b + ("." + c + x)) == (a + "." + b + "." + c) + x
  {}

  lemma TripleOf(a: string, b: string, c: string)
    requires Digits(a) && Digits(b) && Digits(c)
    ensures Triple(a + "." + b + "." + c)
  {}

  lemma VersionIsRead(v: string)
    requires TagVersion(v)
    ensures var x := AfterDotted(AfterDotted(AfterNumber(v))); x.Some? && SuffixRead(x.value)
  {
    hide SuffixRead, AfterDotted, AfterNumber, TagSuffix;
    var t, x :| Triple(t) && TagSuffix(x) && v == t + x;
    var a, b, c :| Digits(a) && Digits(b) && Digits(c) && t == a + "." + b + "." + c;
    SuffixPlain(x);
    ThreeAndRest(a, b, c, x);
    assert !IsDigit('-') && !IsDigit('.');
    NumberRead(a, "." + b + ("." + c + x));
    DottedRead(b, "." + c + x);
    DottedRead(c, x);
    SuffixMeans(x);
  }
}
