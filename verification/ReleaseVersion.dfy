/** Codex versions in their two spellings: PEP 440 and the Rust release tags. */
module ReleaseVersion {
  import opened Text
  import opened VersionGrammar

  // --- splitting texts ---

  lemma {:induction false} SpanUnique(p: char -> bool, a: string, x: string, b: string, y: string)
    requires a + x == b + y
    requires (forall i :: 0 <= i < |a| ==> p(a[i])) && (forall i :: 0 <= i < |b| ==> p(b[i]))
    requires (x == "" || !p(x[0])) && (y == "" || !p(y[0]))
    ensures a == b && x == y
  {
    var s := a + x;
    assert forall i :: 0 <= i < |a| ==> s[i] == a[i];
    assert forall i :: 0 <= i < |b| ==> s[i] == b[i];
    assert |a| < |s| ==> s[|a|] == x[0];
    assert |b| < |s| ==> s[|b|] == y[0];
    assert a == s[..|a|] && b == s[..|b|];
    assert x == s[|a|..] && y == s[|b|..];
  }

  /** The last dash is where the tail without a dash begins. */
  lemma {:induction false} LastDash(p: string, t: string, q: string, r: string)
    requires '-' !in t && '-' !in r && p + "-" + t == q + "-" + r
    ensures p == q && t == r
  {
    var s := p + "-" + t;
    assert s[|p|] == '-' && s[|q|] == '-';
    assert forall i :: |p| < i < |s| ==> s[i] == t[i - |p| - 1];
    assert forall i :: |q| < i < |s| ==> s[i] == r[i - |q| - 1];
    assert p == s[..|p|] && q == s[..|q|];
    assert t == s[|p| + 1..] && r == s[|q| + 1..];
  }

  lemma StripPlain(s: string)
    requires s != "" && !IsSpace(s[0]) && !IsSpace(s[|s| - 1])
    ensures Strip(s) == s
  {}

  // --- PEP 440 normal forms ---

  function JoinDots(parts: seq<string>): string
    requires parts != []
  {
    if |parts| == 1 then parts[0] else parts[0] + "." + JoinDots(parts[1..])
  }

  predicate AllDigits(parts: seq<string>) { forall i :: 0 <= i < |parts| ==> Digits(parts[i]) }

  /** `[0-9]+(?:\.[0-9]+)*` */
  ghost predicate Base(s: string) {
    exists parts :: parts != [] && AllDigits(parts) && s == JoinDots(parts)
  }

  predicate BaseChar(c: char) { IsDigit(c) || c == '.' }

  lemma {:induction false} JoinedPlain(parts: seq<string>)
    requires parts != [] && AllDigits(parts)
    ensures var s := JoinDots(parts);
            && (forall i :: 0 <= i < |s| ==> BaseChar(s[i]))
            && s != "" && IsDigit(s[0]) && IsDigit(s[|s| - 1])
  {
    if |parts| > 1 {
      assert Digits(parts[0]);
      JoinedPlain(parts[1..]);
    } else {
      assert Digits(parts[0]);
    }
  }

  lemma BasePlain(s: string)
    requires Base(s)
    ensures (forall i :: 0 <= i < |s| ==> BaseChar(s[i])) && s != "" && IsDigit(s[0]) && IsDigit(s[|s| - 1])
  {
    var parts :| parts != [] && AllDigits(parts) && s == JoinDots(parts);
    JoinedPlain(parts);
  }

  lemma TripleBase(s: string)
    requires Triple(s)
    ensures Base(s)
  {
    var a, b, c :| Digits(a) && Digits(b) && Digits(c) && s == a + "." + b + "." + c;
    var parts := [a, b, c];
    assert parts[1..] == [b, c] && [b, c][1..] == [c];
    assert JoinDots([c]) == c;
    assert JoinDots([b, c]) == b + "." + c;
    assert JoinDots(parts) == a + "." + (b + "." + c);
    Assoc(a + ".", b + ".", c);
    Assoc(a + ".", b, ".");
    assert AllDigits(parts);
    assert s == JoinDots(parts);
  }

  datatype Kind = Final | Alpha(n: string) | Beta(n: string) | Candidate(n: string)

  datatype Version = Version(base: string, kind: Kind, post: Option<string>)

  ghost predicate Valid(v: Version) {
    Base(v.base) && (!v.kind.Final? ==> Digits(v.kind.n)) && (v.post.Some? ==> Digits(v.post.value))
  }

  function KindText(k: Kind): string {
    match k
    case Final => ""
    case Alpha(n) => "a" + n
    case Beta(n) => "b" + n
    case Candidate(n) => "rc" + n
  }

  function PostText(post: Option<string>): string {
    match post
    case None => ""
    case Some(m) => ".post" + m
  }

  /** The PEP 440 spelling. */
  function Python(v: Version): string { v.base + (KindText(v.kind) + PostText(v.post)) }

  /** `[0-9]+(?:\.[0-9]+)*(?:(?:a|b|rc)[0-9]+)?(?:\.post[0-9]+)?` */
  ghost predicate Normal(s: string) { exists v :: Valid(v) && s == Python(v) }

  lemma WordDigits(word: string, n: string, x: string, m: string, y: string)
    requires Digits(n) && Digits(m) && word + n + x == word + m + y
    requires x == "" || x[0] == '.'
    requires y == "" || y[0] == '.'
    ensures n == m && x == y
  {
    var s := word + n + x;
    assert s[|word|..] == n + x;
    assert s[|word|..] == m + y;
    SpanUnique(c => IsDigit(c), n, x, m, y);
  }

  lemma KindDigits(k: Kind, x: string, k': Kind, y: string)
    requires !k.Final? && Digits(k.n) && !k'.Final? && Digits(k'.n)
    requires x == "" || x[0] == '.'
    requires y == "" || y[0] == '.'
    requires (k.Alpha? <==> k'.Alpha?) && (k.Beta? <==> k'.Beta?)
    requires KindText(k) + x == KindText(k') + y
    ensures k == k' && x == y
  {
    hide Digits;
    match k
    case Alpha(n) => WordDigits("a", n, x, k'.n, y);
    case Beta(n) => WordDigits("b", n, x, k'.n, y);
    case Candidate(n) => WordDigits("rc", n, x, k'.n, y);
  }

  lemma PostStarts(post: Option<string>)
    ensures PostText(post) == "" || PostText(post)[0] == '.'
  {}

  /** The tail of a spelling tells its parts. */
  lemma PostUnique(k: Kind, post: Option<string>, k': Kind, post': Option<string>)
    requires (!k.Final? ==> Digits(k.n)) && (!k'.Final? ==> Digits(k'.n))
    requires KindText(k) + PostText(post) == KindText(k') + PostText(post')
    ensures k == k' && post == post'
  {
    hide KindText, PostText, Digits;
    KindStarts(k, post);
    KindStarts(k', post');
    PostStarts(post);
    PostStarts(post');
    if k.Final? {
      FinalText(k);
      FinalText(k');
      assert "" + PostText(post) == PostText(post) && "" + PostText(post') == PostText(post');
    } else {
      KindDigits(k, PostText(post), k', PostText(post'));
    }
    PostDigits(post, post');
  }

  lemma FinalText(k: Kind)
    requires k.Final?
    ensures KindText(k) == ""
  {}

  lemma KindStarts(k: Kind, post: Option<string>)
    requires !k.Final? ==> Digits(k.n)
    ensures var s := KindText(k) + PostText(post);
            && (k.Final? <==> s == "" || s[0] == '.')
            && (k.Alpha? <==> s != "" && s[0] == 'a')
            && (k.Beta? <==> s != "" && s[0] == 'b')
            && (k.Candidate? <==> s != "" && s[0] == 'r')
  {}

  lemma PostDigits(post: Option<string>, post': Option<string>)
    requires PostText(post) == PostText(post')
    ensures post == post'
  {
    if post.Some? && post'.Some? {
      assert PostText(post)[5..] == post.value && PostText(post')[5..] == post'.value;
    }
  }

  /** Where the base ends: at a letter, or at the dot of a post-release. */
  lemma TailStarts(k: Kind, post: Option<string>)
    ensures var t := KindText(k) + PostText(post);
            t == "" || (!BaseChar(t[0])) || (t[0] == '.' && |t| > 1 && t[1] == 'p')
  {}

  lemma PythonInjective(v: Version, w: Version)
    requires Valid(v) && Valid(w) && Python(v) == Python(w)
    ensures v == w
  {
    BasePlain(v.base);
    BasePlain(w.base);
    var x := KindText(v.kind) + PostText(v.post);
    var y := KindText(w.kind) + PostText(w.post);
    TailStarts(v.kind, v.post);
    TailStarts(w.kind, w.post);
    BaseEnds(v.base, x, w.base, y);
    PostUnique(v.kind, v.post, w.kind, w.post);
  }

  /** A base in front of such a tail can be told apart from it. */
  lemma BaseEnds(b: string, x: string, c: string, y: string)
    requires b != "" && IsDigit(b[|b| - 1]) && forall i :: 0 <= i < |b| ==> BaseChar(b[i])
    requires c != "" && IsDigit(c[|c| - 1]) && forall i :: 0 <= i < |c| ==> BaseChar(c[i])
    requires x == "" || !BaseChar(x[0]) || (x[0] == '.' && |x| > 1 && x[1] == 'p')
    requires y == "" || !BaseChar(y[0]) || (y[0] == '.' && |y| > 1 && y[1] == 'p')
    requires b + x == c + y
    ensures b == c && x == y
  {
    var s := b + x;
    assert forall i :: 0 <= i < |b| ==> s[i] == b[i];
    assert forall i :: 0 <= i < |c| ==> s[i] == c[i];
    assert forall i :: 0 <= i < |x| ==> s[|b| + i] == x[i];
    assert forall i :: 0 <= i < |y| ==> s[|c| + i] == y[i];
    Shorter(b, x, c, y);
    Shorter(c, y, b, x);
    assert b == s[..|b|] && c == s[..|c|];
    assert x == s[|b|..] && y == s[|c|..];
  }

  lemma Shorter(b: string, x: string, c: string, y: string)
    requires c != "" && IsDigit(c[|c| - 1]) && forall i :: 0 <= i < |c| ==> BaseChar(c[i])
    requires x == "" || !BaseChar(x[0]) || (x[0] == '.' && |x| > 1 && x[1] == 'p')
    requires b + x == c + y
    ensures |b| >= |c|
  {
    var s := b + x;
    assert forall i :: 0 <= i < |c| ==> s[i] == c[i];
    assert |b| < |s| ==> s[|b|] == x[0];
    assert |b| + 1 < |s| ==> s[|b| + 1] == x[1];
  }

  // --- the printer ---

  function TagWord(k: Kind): string {
    match k
    case Final => ""
    case Alpha(n) => "-alpha." + n
    case Beta(n) => "-beta." + n
    case Candidate(n) => "-rc." + n
  }

  /** `codex_release_version` on a normal form: the first pattern, the second, or neither. */
  ghost function ReleaseVersionOf(n: string): string {
    if exists base, a, h :: AlphaHotfix(n, base, a, h) then
      var base, a, h :| AlphaHotfix(n, base, a, h);
      base + ("-alpha." + a + "." + h)
    else if exists base, k :: Prerelease(n, base, k) then
      var base, k :| Prerelease(n, base, k);
      base + TagWord(k)
    else n
  }

  /** `([0-9]+(?:\.[0-9]+)*)a([0-9]+)\.post([0-9]+)` */
  ghost predicate AlphaHotfix(n: string, base: string, a: string, h: string) {
    Base(base) && Digits(a) && Digits(h) && n == base + ("a" + a + (".post" + h))
  }

  /** `([0-9]+(?:\.[0-9]+)*)(a|b|rc)([0-9]+)` */
  ghost predicate Prerelease(n: string, base: string, k: Kind) {
    Base(base) && !k.Final? && Digits(k.n) && n == base + KindText(k)
  }

  /** The Rust spelling of a version; a post-release of anything but an alpha has none and keeps its
      PEP 440 spelling. */
  function Rust(v: Version): string {
    if v.kind.Alpha? && v.post.Some? then v.base + ("-alpha." + v.kind.n + "." + v.post.value)
    else if v.post.None? then v.base + TagWord(v.kind)
    else Python(v)
  }

  lemma HotfixParsed(v: Version, base: string, a: string, h: string)
    requires Valid(v) && AlphaHotfix(Python(v), base, a, h)
    ensures v == Version(base, Alpha(a), Some(h))
  {
    PythonInjective(v, Version(base, Alpha(a), Some(h)));
  }

  lemma PrereleaseParsed(v: Version, base: string, k: Kind)
    requires Valid(v) && Prerelease(Python(v), base, k)
    ensures v == Version(base, k, None)
  {
    assert KindText(k) + "" == KindText(k);
    PythonInjective(v, Version(base, k, None));
  }

  /** The two patterns pick exactly the intended spelling. */
  lemma ReleaseVersionIs(v: Version)
    requires Valid(v)
    ensures ReleaseVersionOf(Python(v)) == Rust(v)
  {
    var n := Python(v);
    if exists base, a, h :: AlphaHotfix(n, base, a, h) {
      forall base, a, h | AlphaHotfix(n, base, a, h) ensures v == Version(base, Alpha(a), Some(h)) {
        HotfixParsed(v, base, a, h);
      }
    } else {
      if v.kind.Alpha? && v.post.Some? { assert AlphaHotfix(n, v.base, v.kind.n, v.post.value); }
      if exists base, k :: Prerelease(n, base, k) {
        forall base, k | Prerelease(n, base, k) ensures v == Version(base, k, None) {
          PrereleaseParsed(v, base, k);
        }
      } else {
        assert KindText(v.kind) + "" == KindText(v.kind);
        if !v.kind.Final? && v.post.None? { assert Prerelease(n, v.base, v.kind); }
        if v.kind.Final? && v.post.None? { assert Python(v) == v.base && v.base + "" == v.base; }
      }
    }
  }
}
