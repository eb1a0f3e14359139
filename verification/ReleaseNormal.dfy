/** The normaliser of Codex versions, its inverse, and the release tags it resolves to. */
module ReleaseNormal {
  import opened Text
  import opened VersionGrammar
  import opened ReleaseVersion

  /** What is left of `\.?` followed by a digit. */
  function Undot(u: string): string { if u != "" && u[0] == '.' then u[1..] else u }

  /** `\.?[0-9]+` */
  predicate OneNumber(u: string) { Digits(Undot(u)) }

  /** `\.?([0-9]+)\.([0-9]+)` */
  predicate TwoNumbers(u: string, d: string, e: string) {
    Digits(d) && Digits(e) && Undot(u) == d + ("." + e)
  }

  /** `-alpha\.?([0-9]+)\.([0-9]+)$` after `p`. */
  predicate MatchTwo(s: string, p: string, u: string, d: string, e: string) {
    s == p + "-" + ("alpha" + u) && TwoNumbers(u, d, e)
  }

  /** `-word\.?([0-9]+)$` after `p`. */
  predicate MatchOne(word: string, s: string, p: string, u: string) {
    s == p + "-" + (word + u) && OneNumber(u)
  }

  ghost function SubTwo(s: string): string {
    if exists p, u, d, e :: MatchTwo(s, p, u, d, e) then
      var p, u, d, e :| MatchTwo(s, p, u, d, e);
      p + ("a" + d + (".post" + e))
    else s
  }

  ghost function SubOne(word: string, short: string, s: string): string {
    if exists p, u :: MatchOne(word, s, p, u) then
      var p, u :| MatchOne(word, s, p, u);
      p + (short + Undot(u))
    else s
  }

  ghost function Substituted(s: string): string {
    SubOne("rc", "rc", SubOne("beta", "b", SubOne("alpha", "a", SubTwo(s))))
  }

  function Unprefixed(s: string): string {
    if TAG_PREFIX <= s then s[|TAG_PREFIX|..] else if "v" <= s then s[1..] else s
  }

  /** `normalize_codex_version` */
  ghost function Normalize(version: string): Option<string> {
    var n := Substituted(Unprefixed(Strip(version)));
    if Normal(n) then Some(n) else None
  }

  /** `codex_release_version` */
  ghost function CodexReleaseVersion(version: string): Option<string> {
    match Normalize(version)
    case None => None
    case Some(n) => Some(ReleaseVersionOf(n))
  }

  /** `codex_release_tag` */
  ghost function CodexReleaseTag(version: string): Option<string> {
    match CodexReleaseVersion(version)
    case None => None
    case Some(v) => Some(TAG_PREFIX + v)
  }

  // --- substitutions ---

  lemma DigitsDashless(d: string)
    requires Digits(d)
    ensures '-' !in d
  {}

  lemma NumberDashless(u: string)
    requires OneNumber(u)
    ensures '-' !in u
  {
    assert u == Undot(u) || u == "." + Undot(u);
  }

  lemma TwoDashless(u: string, d: string, e: string)
    requires TwoNumbers(u, d, e)
    ensures '-' !in u
  {
    assert u == Undot(u) || u == "." + Undot(u);
  }

  lemma WordCancel(word: string, u: string, v: string)
    requires word + u == word + v
    ensures u == v
  {
    assert (word + u)[|word|..] == u && (word + v)[|word|..] == v;
  }

  lemma TwoUnique(s: string, p: string, u: string, d: string, e: string, q: string, v: string, f: string, g: string)
    requires MatchTwo(s, p, u, d, e) && MatchTwo(s, q, v, f, g)
    ensures p == q && d == f && e == g
  {
    TwoDashless(u, d, e);
    TwoDashless(v, f, g);
    LastDash(p, "alpha" + u, q, "alpha" + v);
    WordCancel("alpha", u, v);
    SpanUnique(c => IsDigit(c), d, "." + e, f, "." + g);
    WordCancel(".", e, g);
  }

  lemma OneUnique(word: string, s: string, p: string, u: string, q: string, v: string)
    requires '-' !in word && MatchOne(word, s, p, u) && MatchOne(word, s, q, v)
    ensures p == q && u == v
  {
    NumberDashless(u);
    NumberDashless(v);
    LastDash(p, word + u, q, word + v);
    WordCancel(word, u, v);
  }

  lemma SubTwoOn(s: string, p: string, u: string, d: string, e: string)
    requires MatchTwo(s, p, u, d, e)
    ensures SubTwo(s) == p + ("a" + d + (".post" + e))
  {
    forall q, v, f, g | MatchTwo(s, q, v, f, g) ensures q == p && f == d && g == e {
      TwoUnique(s, p, u, d, e, q, v, f, g);
    }
  }

  lemma SubOneOn(word: string, short: string, s: string, p: string, u: string)
    requires '-' !in word && MatchOne(word, s, p, u)
    ensures SubOne(word, short, s) == p + (short + Undot(u))
  {
    forall q, v | MatchOne(word, s, q, v) ensures q == p && v == u {
      OneUnique(word, s, p, u, q, v);
    }
  }

  lemma HasDash(p: string, t: string)
    ensures '-' in p + "-" + t
  {
    assert (p + "-" + t)[|p|] == '-';
  }

  lemma Dashless(s: string)
    requires '-' !in s
    ensures SubTwo(s) == s && SubOne("alpha", "a", s) == s && SubOne("beta", "b", s) == s && SubOne("rc", "rc", s) == s
    ensures Substituted(s) == s
  {
    forall p, u, d, e ensures !MatchTwo(s, p, u, d, e) { HasDash(p, "alpha" + u); }
    forall word, p, u ensures !MatchOne(word, s, p, u) { HasDash(p, word + u); }
  }

  // --- tails that end in a number ---

  /** The last character that is no digit, and the digits after it. */
  lemma LastNumber(x: string, c: char, d: string, y: string, c': char, e: string)
    requires Digits(d) && Digits(e) && !IsDigit(c) && !IsDigit(c')
    requires x + [c] + d == y + [c'] + e
    ensures x == y && c == c' && d == e
  {
    var s := x + [c] + d;
    assert s[|x|] == c && s[|y|] == c';
    assert forall i :: |x| < i < |s| ==> s[i] == d[i - |x| - 1];
    assert forall i :: |y| < i < |s| ==> s[i] == e[i - |y| - 1];
    assert x == s[..|x|] && y == s[..|y|];
    assert d == s[|x| + 1..] && e == s[|y| + 1..];
  }

  /** A word with its number, seen from its last character that is no digit. */
  lemma NumberedWord(word: string, u: string) returns (x: string, c: char)
    requires word != "" && !IsDigit(word[|word| - 1]) && OneNumber(u)
    ensures word + u == x + [c] + Undot(u) && !IsDigit(c)
    ensures c == '.' || (c == word[|word| - 1] && u == Undot(u) && x == word[..|word| - 1])
  {
    if u[0] == '.' {
      x, c := word, '.';
      assert u == "." + Undot(u);
    } else {
      x, c := word[..|word| - 1], word[|word| - 1];
      assert word == x + [c];
    }
  }

  /** A pattern does not match a tail that ends in a number after another character. */
  lemma OtherTail(word: string, short: string, q: string, x: string, c: char, d: string)
    requires word != "" && '-' !in word && !IsDigit(word[|word| - 1])
    requires Digits(d) && !IsDigit(c) && c != '.' && c != word[|word| - 1] && '-' !in x && c != '-'
    ensures SubOne(word, short, q + "-" + (x + [c] + d)) == q + "-" + (x + [c] + d)
  {
    var s := q + "-" + (x + [c] + d);
    forall p, u ensures !MatchOne(word, s, p, u) {
      if MatchOne(word, s, p, u) {
        NumberDashless(u);
        DigitsDashless(d);
        LastDash(q, x + [c] + d, p, word + u);
        var y, c' := NumberedWord(word, u);
        LastNumber(x, c, d, y, c', Undot(u));
      }
    }
  }

  // --- normal forms ---

  lemma TailPlain(k: Kind, post: Option<string>)
    requires (!k.Final? ==> Digits(k.n)) && (post.Some? ==> Digits(post.value))
    ensures var t := KindText(k) + PostText(post);
            && '-' !in t && (t == "" || IsDigit(t[|t| - 1]))
            && forall j :: 0 < j < |t| ==> t[j] != 'a' && t[j] != 'b' && (t[j] != 'r')
  {
    var t := KindText(k) + PostText(post);
    if post.Some? {
      assert t == KindText(k) + ".post" + post.value;
      assert t[|t| - 1] == post.value[|post.value| - 1];
    } else if !k.Final? {
      assert t[|t| - 1] == k.n[|k.n| - 1];
    }
  }

  /** A normal form starts and ends with a digit and contains no dash. */
  lemma PythonPlain(v: Version)
    requires Valid(v)
    ensures var s := Python(v);
            s != "" && IsDigit(s[0]) && IsDigit(s[|s| - 1]) && '-' !in s
  {
    BasePlain(v.base);
    TailPlain(v.kind, v.post);
    var s := Python(v);
    var t := KindText(v.kind) + PostText(v.post);
    assert s[0] == v.base[0];
    assert s[|s| - 1] == if t == "" then v.base[|v.base| - 1] else t[|t| - 1];
  }

  lemma DashNotNormal(s: string)
    requires '-' in s
    ensures !Normal(s)
  {
    forall v | Valid(v) ensures Python(v) != s { PythonPlain(v); }
  }

  /** A letter of a kind stands only at the end of the base. */
  lemma LetterAt(v: Version, i: nat)
    requires Valid(v) && i < |Python(v)| && Python(v)[i] in ['a', 'b', 'r']
    ensures i == |v.base|
  {
    BasePlain(v.base);
    TailPlain(v.kind, v.post);
    var t := KindText(v.kind) + PostText(v.post);
    assert forall j :: 0 <= j < |v.base| ==> Python(v)[j] == v.base[j];
    assert i >= |v.base| ==> Python(v)[i] == t[i - |v.base|];
  }

  /** What stands before a kind in a normal form is its base. */
  lemma NormalPrefix(p: string, k: Kind, post: Option<string>)
    requires !k.Final? && Digits(k.n) && (post.Some? ==> Digits(post.value))
    requires Normal(p + (KindText(k) + PostText(post)))
    ensures Valid(Version(p, k, post))
  {
    var s := p + (KindText(k) + PostText(post));
    var v :| Valid(v) && s == Python(v);
    KindStarts(k, post);
    assert s[|p|] == (KindText(k) + PostText(post))[0];
    LetterAt(v, |p|);
    assert v.base == s[..|p|] == p;
  }

  lemma KindPrefix(p: string, k: Kind)
    requires !k.Final? && Digits(k.n) && Normal(p + KindText(k))
    ensures Valid(Version(p, k, None)) && p + KindText(k) == Python(Version(p, k, None))
  {
    assert KindText(k) + PostText(None) == KindText(k);
    NormalPrefix(p, k, None);
  }

  lemma {:induction false} SplitDash(p: string) returns (q: string, r: string)
    requires '-' in p
    ensures p == q + "-" + r && '-' !in r
  {
    var last := |p| - 1;
    if p[last] == '-' {
      q, r := p[..last], "";
      assert p == q + "-" + r;
    } else {
      assert p == p[..last] + [p[last]];
      q, r := SplitDash(p[..last]);
      Assoc(q + "-", r, [p[last]]);
      r := r + [p[last]];
    }
  }

  // --- which inputs are accepted ---

  /** The shapes of an accepted input, after stripping and removal of the prefix. */
  ghost predicate Accepts(core: string, v: Version) {
    && Valid(v)
    && (|| core == Python(v)
        || HotfixShape(core, v)
        || (v.kind.Alpha? && WordShape("alpha", core, v))
        || (v.kind.Beta? && WordShape("beta", core, v))
        || (v.kind.Candidate? && WordShape("rc", core, v))
        || StrayShape(core, v))
  }

  ghost predicate HotfixShape(core: string, v: Version) {
    v.kind.Alpha? && v.post.Some? && exists u :: MatchTwo(core, v.base, u, v.kind.n, v.post.value)
  }

  ghost predicate WordShape(word: string, core: string, v: Version)
    requires !v.kind.Final?
  {
    v.post.None? && exists u :: MatchOne(word, core, v.base, u) && Undot(u) == v.kind.n
  }

  /** A stray one: two substitutions in a row turn `-bet-alpha1` into `b1`. */
  ghost predicate StrayShape(core: string, v: Version) {
    v.kind.Beta? && v.post.None?
    && exists u :: MatchOne("alpha", core, v.base + "-" + "bet", u) && Undot(u) == v.kind.n
  }

  lemma NoTwo(s: string, p: string, t: string)
    requires s == p + "-" + t && '-' !in t
    requires forall u, d, e :: TwoNumbers(u, d, e) ==> t != "alpha" + u
    ensures SubTwo(s) == s
  {
    forall q, u, d, e ensures !MatchTwo(s, q, u, d, e) {
      if MatchTwo(s, q, u, d, e) {
        TwoDashless(u, d, e);
        LastDash(p, t, q, "alpha" + u);
      }
    }
  }

  lemma NoOne(word: string, short: string, s: string, p: string, t: string)
    requires s == p + "-" + t && '-' !in t && '-' !in word
    requires forall u :: OneNumber(u) ==> t != word + u
    ensures SubOne(word, short, s) == s
  {
    forall q, u ensures !MatchOne(word, s, q, u) {
      if MatchOne(word, s, q, u) {
        NumberDashless(u);
        LastDash(p, t, q, word + u);
      }
    }
  }

  lemma TwoHasDot(u: string, d: string, e: string)
    requires TwoNumbers(u, d, e)
    ensures '.' in Undot(u)
  {
    assert Undot(u)[|d|] == '.';
  }

  /** One number is not two. */
  lemma OneNotTwo(s: string, p: string, u: string)
    requires MatchOne("alpha", s, p, u)
    ensures SubTwo(s) == s
  {
    NumberDashless(u);
    forall v, d, e | TwoNumbers(v, d, e) ensures "alpha" + u != "alpha" + v {
      TwoHasDot(v, d, e);
      if "alpha" + u == "alpha" + v { WordCancel("alpha", u, v); }
    }
    NoTwo(s, p, "alpha" + u);
  }

  /** Another first letter is another word. */
  lemma OtherWord(s: string, p: string, t: string)
    requires s == p + "-" + t && '-' !in t && t != ""
    ensures t[0] != 'a' ==> SubTwo(s) == s && SubOne("alpha", "a", s) == s
    ensures t[0] != 'b' ==> SubOne("beta", "b", s) == s
    ensures t[0] != 'r' ==> SubOne("rc", "rc", s) == s
  {
    assert forall u: string :: ("alpha" + u)[0] == 'a';
    assert forall u: string :: ("beta" + u)[0] == 'b';
    assert forall u: string :: ("rc" + u)[0] == 'r';
    if t[0] != 'a' {
      NoTwo(s, p, t);
      NoOne("alpha", "a", s, p, t);
    }
    if t[0] != 'b' { NoOne("beta", "b", s, p, t); }
    if t[0] != 'r' { NoOne("rc", "rc", s, p, t); }
  }

  /** Each shape is turned into its normal form. */
  lemma HotfixTurns(core: string, v: Version)
    requires Valid(v) && HotfixShape(core, v)
    ensures Substituted(core) == Python(v)
  {
    var u :| MatchTwo(core, v.base, u, v.kind.n, v.post.value);
    SubTwoOn(core, v.base, u, v.kind.n, v.post.value);
    PythonPlain(v);
    Dashless(Python(v));
  }

  lemma AlphaTurns(core: string, v: Version)
    requires Valid(v) && v.kind.Alpha? && WordShape("alpha", core, v)
    ensures Substituted(core) == Python(v)
  {
    var u :| MatchOne("alpha", core, v.base, u) && Undot(u) == v.kind.n;
    OneNotTwo(core, v.base, u);
    SubOneOn("alpha", "a", core, v.base, u);
    assert KindText(v.kind) + "" == KindText(v.kind);
    PythonPlain(v);
    Dashless(Python(v));
  }

  lemma BetaTurns(core: string, v: Version)
    requires Valid(v) && v.kind.Beta? && WordShape("beta", core, v)
    ensures Substituted(core) == Python(v)
  {
    var u :| MatchOne("beta", core, v.base, u) && Undot(u) == v.kind.n;
    NumberDashless(u);
    OtherWord(core, v.base, "beta" + u);
    SubOneOn("beta", "b", core, v.base, u);
    assert KindText(v.kind) + "" == KindText(v.kind);
    PythonPlain(v);
    Dashless(Python(v));
  }

  lemma CandidateTurns(core: string, v: Version)
    requires Valid(v) && v.kind.Candidate? && WordShape("rc", core, v)
    ensures Substituted(core) == Python(v)
  {
    var u :| MatchOne("rc", core, v.base, u) && Undot(u) == v.kind.n;
    NumberDashless(u);
    OtherWord(core, v.base, "rc" + u);
    SubOneOn("rc", "rc", core, v.base, u);
    assert KindText(v.kind) + "" == KindText(v.kind);
  }

  lemma StrayTurns(core: string, v: Version)
    requires Valid(v) && StrayShape(core, v)
    ensures Substituted(core) == Python(v)
  {
    var p := v.base + "-" + "bet";
    var u :| MatchOne("alpha", core, p, u) && Undot(u) == v.kind.n;
    var n := v.kind.n;
    OneNotTwo(core, p, u);
    SubOneOn("alpha", "a", core, p, u);
    var s2 := p + ("a" + n);
    Assoc(v.base + "-", "bet", "a" + n);
    assert "bet" + ("a" + n) == "beta" + n;
    assert Undot(n) == n;
    assert MatchOne("beta", s2, v.base, n);
    SubOneOn("beta", "b", s2, v.base, n);
    assert KindText(v.kind) + "" == KindText(v.kind);
    PythonPlain(v);
    Dashless(Python(v));
  }

  lemma AcceptedTurns(core: string, v: Version)
    requires Accepts(core, v)
    ensures Substituted(core) == Python(v)
  {
    hide HotfixShape, WordShape, StrayShape, Substituted, Python;
    if core == Python(v) {
      PythonPlain(v);
      Dashless(core);
    } else if HotfixShape(core, v) {
      HotfixTurns(core, v);
    } else if v.kind.Alpha? && WordShape("alpha", core, v) {
      AlphaTurns(core, v);
    } else if v.kind.Beta? && WordShape("beta", core, v) {
      BetaTurns(core, v);
    } else if v.kind.Candidate? && WordShape("rc", core, v) {
      CandidateTurns(core, v);
    } else {
      StrayTurns(core, v);
    }
  }

  /** A dash in front of what a substitution made stays, unless the word before it is `bet`. */
  lemma DashStays(p: string, x: string, c: char, d: string) returns (q: string, r: string)
    requires '-' in p && Digits(d) && !IsDigit(c) && c != '.' && c != '-' && '-' !in x
    ensures p == q + "-" + r && '-' !in r
    ensures var s := p + (x + [c] + d);
            && s == q + "-" + (r + x + [c] + d) && '-' in s
            && (c != 'a' ==> SubOne("alpha", "a", s) == s && SubOne("beta", "b", s) == s)
            && (c != 'c' ==> SubOne("rc", "rc", s) == s)
  {
    q, r := SplitDash(p);
    var s := p + (x + [c] + d);
    assert s == q + "-" + (r + x + [c] + d);
    HasDash(q, r + x + [c] + d);
    if c != 'a' {
      OtherTail("alpha", "a", q, r + x, c, d);
      OtherTail("beta", "b", q, r + x, c, d);
    }
    if c != 'c' { OtherTail("rc", "rc", q, r + x, c, d); }
  }

  lemma DashlessConcat(p: string, t: string)
    requires '-' !in p && '-' !in t
    ensures '-' !in p + t
  {}

  function HotfixText(d: string, e: string): string { "a" + d + (".post" + e) }

  lemma HotfixDash(p: string, d: string, e: string)
    requires '-' in p && Digits(d) && Digits(e)
    ensures var s := p + HotfixText(d, e);
            && '-' in s
            && SubOne("alpha", "a", s) == s && SubOne("beta", "b", s) == s && SubOne("rc", "rc", s) == s
  {
    hide SubOne;
    DigitsDashless(d);
    assert HotfixText(d, e) == "a" + d + ".pos" + ['t'] + e;
    var q, r := DashStays(p, "a" + d + ".pos", 't', e);
  }

  lemma HotfixPlain(p: string, d: string, e: string)
    requires '-' !in p && Digits(d) && Digits(e)
    ensures var s := p + HotfixText(d, e);
            && SubOne("alpha", "a", s) == s && SubOne("beta", "b", s) == s && SubOne("rc", "rc", s) == s
  {
    TailPlain(Alpha(d), Some(e));
    assert KindText(Alpha(d)) + PostText(Some(e)) == HotfixText(d, e);
    DashlessConcat(p, HotfixText(d, e));
    Dashless(p + HotfixText(d, e));
  }

  lemma HotfixForward(s: string, p: string, u: string, d: string, e: string) returns (v: Version)
    requires MatchTwo(s, p, u, d, e) && Normal(Substituted(s))
    ensures Accepts(s, v) && Substituted(s) == Python(v)
  {
    SubTwoOn(s, p, u, d, e);
    v := Version(p, Alpha(d), Some(e));
    assert SubTwo(s) == p + HotfixText(d, e) == Python(v);
    assert HotfixShape(s, v);
    hide SubTwo, SubOne, HotfixShape, HotfixText, Base, Digits;
    if '-' in p {
      HotfixDash(p, d, e);
      DashNotNormal(p + HotfixText(d, e));
    } else {
      HotfixPlain(p, d, e);
      NormalPrefix(p, Alpha(d), Some(e));
    }
  }

  lemma AlphaForward(s: string, p: string, u: string) returns (v: Version)
    requires MatchOne("alpha", s, p, u) && Normal(Substituted(s))
    ensures Accepts(s, v) && Substituted(s) == Python(v)
  {
    OneNotTwo(s, p, u);
    SubOneOn("alpha", "a", s, p, u);
    var n := Undot(u);
    DigitsDashless(n);
    if '-' in p {
      v := StrayForward(s, p, u);
    } else {
      v := Version(p, Alpha(n), None);
      DashlessConcat(p, "a" + n);
      Dashless(p + ("a" + n));
      KindPrefix(p, Alpha(n));
      assert WordShape("alpha", s, v);
    }
  }

  lemma StrayForward(s: string, p: string, u: string) returns (v: Version)
    requires MatchOne("alpha", s, p, u) && Normal(Substituted(s)) && '-' in p
    ensures Accepts(s, v) && Substituted(s) == Python(v)
  {
    OneNotTwo(s, p, u);
    SubOneOn("alpha", "a", s, p, u);
    var n := Undot(u);
    DigitsDashless(n);
    var q, r := AlphaMade(p, n);
    v := Version(q, Beta(n), None);
    if r == "bet" {
      BetMatches(p, q, n);
      BetaEnds(q, n);
      KindPrefix(q, Beta(n));
      assert StrayShape(s, v);
    } else {
      NotBet(q, r, n);
      DashNotNormal(p + ("a" + n));
    }
  }

  lemma AlphaMade(p: string, n: string) returns (q: string, r: string)
    requires '-' in p && Digits(n)
    ensures p == q + "-" + r && '-' !in r
    ensures var s2 := p + ("a" + n);
            && s2 == q + "-" + (r + ['a'] + n) && '-' in s2 && SubOne("rc", "rc", s2) == s2
  {
    hide SubOne;
    assert "" + ['a'] + n == "a" + n;
    q, r := DashStays(p, "", 'a', n);
    assert r + "" == r;
  }

  lemma BetMatches(p: string, q: string, n: string)
    requires p == q + "-" + "bet" && Digits(n)
    ensures SubOne("beta", "b", p + ("a" + n)) == q + ("b" + n)
  {
    var s2 := p + ("a" + n);
    Assoc(q + "-", "bet", "a" + n);
    assert "bet" + ("a" + n) == "beta" + n && Undot(n) == n;
    assert MatchOne("beta", s2, q, n);
    SubOneOn("beta", "b", s2, q, n);
  }

  /** The last substitution after one that made `b` and a number. */
  lemma BetaEnds(q: string, n: string)
    requires Digits(n)
    ensures var s3 := q + ("b" + n);
            && SubOne("rc", "rc", s3) == s3
            && (Normal(s3) ==> '-' !in q)
  {
    var s3 := q + ("b" + n);
    assert "" + ['b'] + n == "b" + n;
    DigitsDashless(n);
    if '-' in q {
      var q', r' := DashStays(q, "", 'b', n);
      DashNotNormal(s3);
    } else {
      DashlessConcat(q, "b" + n);
      Dashless(s3);
    }
  }

  lemma NotBet(q: string, r: string, n: string)
    requires '-' !in r && Digits(n) && r != "bet"
    ensures var s2 := q + "-" + (r + ['a'] + n); SubOne("beta", "b", s2) == s2
  {
    DigitsDashless(n);
    forall u | OneNumber(u) ensures r + ['a'] + n != "beta" + u {
      if r + ['a'] + n == "beta" + u {
        var y, c := NumberedWord("beta", u);
        LastNumber(r, 'a', n, y, c, Undot(u));
      }
    }
    NoOne("beta", "b", q + "-" + (r + ['a'] + n), q, r + ['a'] + n);
  }

  lemma BetaForward(s: string, p: string, u: string) returns (v: Version)
    requires MatchOne("beta", s, p, u) && Normal(Substituted(s))
    ensures Accepts(s, v) && Substituted(s) == Python(v)
  {
    NumberDashless(u);
    OtherWord(s, p, "beta" + u);
    SubOneOn("beta", "b", s, p, u);
    BetaEnds(p, Undot(u));
    v := Version(p, Beta(Undot(u)), None);
    KindPrefix(p, Beta(Undot(u)));
    assert WordShape("beta", s, v);
  }

  lemma CandidateForward(s: string, p: string, u: string) returns (v: Version)
    requires MatchOne("rc", s, p, u) && Normal(Substituted(s))
    ensures Accepts(s, v) && Substituted(s) == Python(v)
  {
    NumberDashless(u);
    OtherWord(s, p, "rc" + u);
    SubOneOn("rc", "rc", s, p, u);
    v := Version(p, Candidate(Undot(u)), None);
    KindPrefix(p, Candidate(Undot(u)));
    assert WordShape("rc", s, v);
  }

  lemma Untouched(s: string)
    requires forall p, u, d, e :: !MatchTwo(s, p, u, d, e)
    requires forall p, u :: !MatchOne("alpha", s, p, u) && !MatchOne("beta", s, p, u) && !MatchOne("rc", s, p, u)
    ensures Substituted(s) == s
  {}

  /** Nothing else is accepted. */
  lemma TurnedAccepted(s: string) returns (v: Version)
    requires Normal(Substituted(s))
    ensures Accepts(s, v) && Substituted(s) == Python(v)
  {
    hide Substituted, Accepts, MatchTwo, MatchOne, Normal;
    if p, u, d, e :| MatchTwo(s, p, u, d, e) {
      v := HotfixForward(s, p, u, d, e);
    } else if p, u :| MatchOne("alpha", s, p, u) {
      v := AlphaForward(s, p, u);
    } else if p, u :| MatchOne("beta", s, p, u) {
      v := BetaForward(s, p, u);
    } else if p, u :| MatchOne("rc", s, p, u) {
      v := CandidateForward(s, p, u);
    } else {
      Untouched(s);
      v := PlainAccepted(s);
    }
  }

  lemma PlainAccepted(s: string) returns (v: Version)
    requires Normal(s)
    ensures Accepts(s, v) && s == Python(v)
  {
    v :| Valid(v) && s == Python(v);
  }

  /** Exactly which inputs are accepted, and what they are turned into. */
  lemma AcceptedExactly(version: string, n: string)
    ensures Normalize(version) == Some(n)
       <==> exists v :: Accepts(Unprefixed(Strip(version)), v) && n == Python(v)
  {
    hide Accepts, Substituted, Python;
    var core := Unprefixed(Strip(version));
    if Normal(Substituted(core)) {
      var v := TurnedAccepted(core);
    }
    forall v | Accepts(core, v) ensures Substituted(core) == Python(v) && Normal(Python(v)) {
      AcceptedTurns(core, v);
      AcceptsValid(core, v);
    }
  }

  lemma AcceptsValid(core: string, v: Version)
    requires Accepts(core, v)
    ensures Normal(Python(v))
  {
    hide HotfixShape, WordShape, StrayShape, Python;
  }
}
