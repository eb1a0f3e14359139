/** What the two spellings owe each other, and the publisher. */
module ReleaseTags {
  import opened Text
  import opened VersionGrammar
  import opened ReleaseVersion
  import opened ReleaseNormal

  lemma RustForm(v: Version)
    requires Valid(v)
    ensures Accepts(Rust(v), v)
    ensures var s := Rust(v); s != "" && IsDigit(s[0]) && IsDigit(s[|s| - 1])
  {
    BasePlain(v.base);
    PythonPlain(v);
    if v.kind.Alpha? && v.post.Some? {
      HotfixForm(v.base, v.kind.n, v.post.value);
    } else if v.post.None? && !v.kind.Final? {
      WordForm(v.base, v.kind);
    } else if v.post.None? {
      assert v.base + "" == v.base && "" + "" == "";
    }
  }

  lemma HotfixForm(b: string, d: string, e: string)
    requires Base(b) && Digits(d) && Digits(e)
    ensures var s := b + ("-alpha." + d + "." + e);
            && MatchTwo(s, b, "." + d + "." + e, d, e)
            && s[0] == b[0] && s[|s| - 1] == e[|e| - 1]
  {
    BasePlain(b);
    var s := b + ("-alpha." + d + "." + e);
    var u := "." + d + "." + e;
    assert "-alpha." + d + "." + e == "-" + ("alpha" + u);
    Assoc(b, "-", "alpha" + u);
    assert Undot(u) == d + ("." + e);
    assert s[|s| - 1] == e[|e| - 1];
  }

  lemma WordMatch(b: string, word: string, n: string)
    requires Base(b) && Digits(n)
    ensures var s := b + ("-" + (word + ("." + n)));
            && MatchOne(word, s, b, "." + n) && Undot("." + n) == n
            && s[0] == b[0] && s[|s| - 1] == n[|n| - 1]
  {
    BasePlain(b);
    Assoc(b, "-", word + ("." + n));
    var s := b + ("-" + (word + ("." + n)));
    assert s[|s| - 1] == n[|n| - 1];
  }

  lemma WordText(k: Kind)
    requires !k.Final?
    ensures k.Alpha? ==> TagWord(k) == "-" + ("alpha" + ("." + k.n))
    ensures k.Beta? ==> TagWord(k) == "-" + ("beta" + ("." + k.n))
    ensures k.Candidate? ==> TagWord(k) == "-" + ("rc" + ("." + k.n))
  {
    match k
    case Alpha(n) => assert "-alpha." + n == "-" + ("alpha" + ("." + n));
    case Beta(n) => assert "-beta." + n == "-" + ("beta" + ("." + n));
    case Candidate(n) => assert "-rc." + n == "-" + ("rc" + ("." + n));
  }

  lemma WordForm(b: string, k: Kind)
    requires Base(b) && !k.Final? && Digits(k.n)
    ensures var s := b + TagWord(k);
            var word := if k.Alpha? then "alpha" else if k.Beta? then "beta" else "rc";
            && MatchOne(word, s, b, "." + k.n) && Undot("." + k.n) == k.n
            && s != "" && s[0] == b[0] && s[|s| - 1] == k.n[|k.n| - 1]
  {
    hide TagWord, MatchOne, Undot, Base, Digits;
    WordText(k);
    BasePlain(b);
    match k
    case Alpha(n) => WordMatch(b, "alpha", n);
    case Beta(n) => WordMatch(b, "beta", n);
    case Candidate(n) => WordMatch(b, "rc", n);
  }

  /** Text that starts and ends with a digit is looked at as it is, also behind the tag prefix. */
  lemma Core(s: string)
    requires s != "" && IsDigit(s[0]) && IsDigit(s[|s| - 1])
    ensures Unprefixed(Strip(s)) == s && Unprefixed(Strip(TAG_PREFIX + s)) == s
  {
    StripPlain(s);
    var t := TAG_PREFIX + s;
    assert t[0] == 'r' && t[|t| - 1] == s[|s| - 1];
    StripPlain(t);
    assert TAG_PREFIX <= t && t[|TAG_PREFIX|..] == s;
    assert TAG_PREFIX[0] == 'r' && "v"[0] == 'v';
  }

  lemma AcceptedCore(s: string, v: Version)
    requires Accepts(s, v) && s != "" && IsDigit(s[0]) && IsDigit(s[|s| - 1])
    ensures Normalize(s) == Some(Python(v)) && Normalize(TAG_PREFIX + s) == Some(Python(v))
  {
    hide Accepts, Python, Substituted, Unprefixed, Strip;
    Core(s);
    AcceptedTurns(s, v);
    AcceptsValid(s, v);
  }

  lemma NormalizeRust(v: Version)
    requires Valid(v)
    ensures Normalize(Rust(v)) == Some(Python(v))
    ensures Normalize(TAG_PREFIX + Rust(v)) == Some(Python(v))
    ensures Normalize(Python(v)) == Some(Python(v))
  {
    hide Normalize, Rust, Python;
    RustForm(v);
    AcceptedCore(Rust(v), v);
    PythonPlain(v);
    AcceptedCore(Python(v), v);
  }

  /** Normalising is idempotent, and printing is undone by normalising, with or without the tag
      prefix, for every accepted input. */
  lemma PrintThenNormalize(version: string)
    requires Normalize(version).Some?
    ensures var n := Normalize(version).value;
            && Normalize(n) == Some(n)
            && CodexReleaseVersion(version).Some?
            && Normalize(CodexReleaseVersion(version).value) == Some(n)
            && Normalize(CodexReleaseTag(version).value) == Some(n)
  {
    hide Substituted, Python, Rust, Valid;
    var n := Normalize(version).value;
    var v :| Valid(v) && n == Python(v);
    ReleaseVersionIs(v);
    NormalizeRust(v);
  }

  /** Two inputs get the same tag exactly if they have the same normal form. */
  lemma SameTag(a: string, b: string)
    requires Normalize(a).Some? && Normalize(b).Some?
    ensures CodexReleaseTag(a) == CodexReleaseTag(b) <==> Normalize(a) == Normalize(b)
  {
    hide Normalize;
    PrintThenNormalize(a);
    PrintThenNormalize(b);
  }

  // --- resolving a Python runtime version ---

  /** `[0-9]+\\.[0-9]+\\.[0-9]+(?:a[0-9]+(?:\\.post[0-9]+)?)?` */
  ghost predicate RuntimeVersion(s: string) {
    exists v :: Valid(v) && Runtime(v) && s == Python(v)
  }

  ghost predicate Runtime(v: Version) {
    Triple(v.base) && (v.kind.Final? || v.kind.Alpha?) && (v.post.Some? ==> v.kind.Alpha?)
  }

  /** `resolve_python_runtime_release` */
  ghost function Resolve(s: string): Option<(string, string)> {
    if RuntimeVersion(s) && CodexReleaseTag(s).Some? then Some((s, CodexReleaseTag(s).value)) else None
  }

  lemma InGrammar(base: string, x: string)
    requires Triple(base) && TagSuffix(x)
    ensures TagVersion(base + x)
  {}

  lemma AlphaSuffix(d: string)
    requires Digits(d)
    ensures TagSuffix("-alpha." + d)
  {}

  lemma HotfixSuffix(d: string, e: string)
    requires Digits(d) && Digits(e)
    ensures TagSuffix("-alpha." + d + "." + e)
  {}

  lemma RustInGrammar(v: Version)
    requires Valid(v) && Runtime(v)
    ensures TagVersion(Rust(v))
  {
    hide Triple, TagSuffix, TagVersion, Base;
    if v.kind.Final? {
      assert TagSuffix("") by { NoSuffix(); }
      InGrammar(v.base, "");
    } else if v.post.None? {
      AlphaSuffix(v.kind.n);
      InGrammar(v.base, "-alpha." + v.kind.n);
    } else {
      HotfixSuffix(v.kind.n, v.post.value);
      InGrammar(v.base, "-alpha." + v.kind.n + "." + v.post.value);
    }
  }

  lemma NoSuffix()
    ensures TagSuffix("")
  {}

  /** Every runtime version resolves, to a tag of the publisher's grammar that normalises back. */
  lemma ResolvedTag(s: string)
    requires RuntimeVersion(s)
    ensures Resolve(s).Some? && Resolve(s).value.0 == s
    ensures ReleaseTag(Resolve(s).value.1)
    ensures Normalize(Resolve(s).value.1) == Some(s)
  {
    hide Python, Rust, Valid, Runtime, TagVersion, Normalize, ReleaseVersionOf;
    var v :| Valid(v) && Runtime(v) && s == Python(v);
    NormalizeRust(v);
    ReleaseVersionIs(v);
    RustInGrammar(v);
  }

  /** Different runtime versions resolve to different tags. */
  lemma TagsApart(a: string, tagA: string, b: string, tagB: string)
    requires Resolve(a) == Some((a, tagA)) && Resolve(b) == Some((b, tagB)) && a != b
    ensures tagA != tagB
  {
    hide Normalize, CodexReleaseTag, RuntimeVersion;
    ResolvedTag(a);
    ResolvedTag(b);
  }

  // --- the publisher's versions ---

  /** A numbered version of the publisher is the Rust spelling of some version. */
  lemma NumberedSuffix(base: string, x: string) returns (v: Version)
    requires Triple(base) && TagSuffix(x) && x != "-alpha" && x != "-beta"
    ensures Valid(v) && base + x == Rust(v)
  {
    TripleBase(base);
    if x == "" {
      v := Version(base, Final, None);
    } else if d :| Digits(d) && x == "-alpha." + d {
      v := Version(base, Alpha(d), None);
    } else if d :| Digits(d) && x == "-beta." + d {
      v := Version(base, Beta(d), None);
    } else {
      var d, e :| Digits(d) && Digits(e) && x == "-alpha." + d + "." + e;
      v := Version(base, Alpha(d), Some(e));
    }
  }

  lemma OneEndsInDigit(word: string, s: string, p: string, u: string)
    requires MatchOne(word, s, p, u)
    ensures s != "" && IsDigit(s[|s| - 1])
  {
    assert u[|u| - 1] == Undot(u)[|Undot(u)| - 1];
    assert s[|s| - 1] == (word + u)[|word + u| - 1] == u[|u| - 1];
  }

  lemma TwoEndsInDigit(s: string, p: string, u: string, d: string, e: string)
    requires MatchTwo(s, p, u, d, e)
    ensures s != "" && IsDigit(s[|s| - 1])
  {
    assert u[|u| - 1] == Undot(u)[|Undot(u)| - 1] == e[|e| - 1];
    assert s[|s| - 1] == ("alpha" + u)[|"alpha" + u| - 1] == u[|u| - 1];
  }

  /** Without a digit at the end no pattern matches. */
  lemma NoDigitUntouched(s: string)
    requires s != "" && !IsDigit(s[|s| - 1])
    ensures Substituted(s) == s
  {
    hide MatchOne, MatchTwo, Substituted;
    forall word, p, u ensures !MatchOne(word, s, p, u) {
      if MatchOne(word, s, p, u) { OneEndsInDigit(word, s, p, u); }
    }
    forall p, u, d, e ensures !MatchTwo(s, p, u, d, e) {
      if MatchTwo(s, p, u, d, e) { TwoEndsInDigit(s, p, u, d, e); }
    }
    Untouched(s);
  }

  lemma BareEnds(base: string, x: string)
    requires Base(base) && (x == "-alpha" || x == "-beta")
    ensures var s := base + x;
            && s != "" && IsDigit(s[0]) && s[|s| - 1] == 'a' && '-' in s
  {
    BasePlain(base);
    var s := base + x;
    assert s[|base|] == '-';
    assert s[0] == base[0] && s[|s| - 1] == x[|x| - 1];
  }

  lemma DigitFirst(s: string)
    requires s != "" && IsDigit(s[0]) && s[|s| - 1] == 'a'
    ensures Unprefixed(Strip(s)) == s
  {
    StripPlain(s);
    assert TAG_PREFIX[0] == 'r' && "v"[0] == 'v';
  }

  lemma BareRefused(base: string, x: string)
    requires Triple(base) && (x == "-alpha" || x == "-beta")
    ensures Normalize(base + x).None?
  {
    hide Substituted, Normal, Unprefixed, Strip, Triple, Base;
    TripleBase(base);
    BareEnds(base, x);
    DigitFirst(base + x);
    NoDigitUntouched(base + x);
    DashNotNormal(base + x);
  }

  /** A version the publisher accepts has a normal form exactly if it ends in a digit, that is, if
      its pre-release is numbered; then it is already the printed form. */
  lemma PublisherVersion(s: string)
    requires TagVersion(s)
    ensures s != "" && (Normalize(s).Some? <==> IsDigit(s[|s| - 1]))
    ensures Normalize(s).Some? ==> CodexReleaseVersion(s) == Some(s)
  {
    hide Normalize, Python, Rust, Triple, TagSuffix;
    var base, x :| Triple(base) && TagSuffix(x) && s == base + x;
    if x == "-alpha" || x == "-beta" {
      TripleBase(base);
      BareEnds(base, x);
      BareRefused(base, x);
    } else {
      var v := NumberedSuffix(base, x);
      RustForm(v);
      NormalizeRust(v);
      ReleaseVersionIs(v);
    }
  }

  /** The stray shape at work: no version of either spelling, but accepted as a beta. */
  lemma StrayAccepted(base: string, d: string)
    requires Base(base) && Digits(d)
    ensures Normalize(base + "-" + "bet" + "-" + ("alpha" + d)) == Some(Python(Version(base, Beta(d), None)))
  {
    StrayForm(base, d);
    AcceptedCore(base + "-" + "bet" + "-" + ("alpha" + d), Version(base, Beta(d), None));
  }

  lemma StrayForm(base: string, d: string)
    requires Base(base) && Digits(d)
    ensures var s := base + "-" + "bet" + "-" + ("alpha" + d);
            && Accepts(s, Version(base, Beta(d), None))
            && s != "" && IsDigit(s[0]) && IsDigit(s[|s| - 1])
  {
    BasePlain(base);
    var s := base + "-" + "bet" + "-" + ("alpha" + d);
    assert Undot(d) == d && MatchOne("alpha", s, base + "-" + "bet", d);
    assert StrayShape(s, Version(base, Beta(d), None));
    assert s[0] == base[0] && s[|s| - 1] == d[|d| - 1];
  }
}
