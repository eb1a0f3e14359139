/** The tag grammar of the release publisher:
    `[0-9]+\.[0-9]+\.[0-9]+(?:-(?:alpha(?:\.[0-9]+){0,2}|beta(?:\.[0-9]+)?))?`. */
module VersionGrammar {
  import opened Text

  /** `[0-9]+\.[0-9]+\.[0-9]+` */
  ghost predicate Triple(s: string) {
    exists a, b, c :: Digits(a) && Digits(b) && Digits(c) && s == a + "." + b + "." + c
  }

  ghost predicate TagSuffix(x: string) {
    || x == "" || x == "-alpha" || x == "-beta"
    || (exists d :: Digits(d) && (x == "-alpha." + d || x == "-beta." + d))
    || (exists d, e :: Digits(d) && Digits(e) && x == "-alpha." + d + "." + e)
  }

  ghost predicate TagVersion(s: string) {
    exists base, x :: Triple(base) && TagSuffix(x) && s == base + x
  }

  const TAG_PREFIX := "rust-v"

  /** `main` accepts a tag that carries the prefix before a version of the grammar. */
  ghost predicate ReleaseTag(tag: string) {
    exists v :: TagVersion(v) && tag == TAG_PREFIX + v
  }

  lemma DigitsPlain(d: string)
    requires Digits(d)
    ensures '/' !in d && '-' !in d && '.' !in d && NoSpace(d)
  {}

  lemma SuffixPlain(x: string)
    requires TagSuffix(x)
    ensures '/' !in x && (x == "" || x[0] == '-')
  {
    if d :| Digits(d) && (x == "-alpha." + d || x == "-beta." + d) {
      DigitsPlain(d);
    } else if d, e :| Digits(d) && Digits(e) && x == "-alpha." + d + "." + e {
      DigitsPlain(d);
      DigitsPlain(e);
    }
  }

  /** No version of the grammar contains a path separator. */
  lemma VersionPlain(v: string)
    requires TagVersion(v)
    ensures '/' !in v && v != "" && IsDigit(v[0])
  {
    var base, x :| Triple(base) && TagSuffix(x) && v == base + x;
    var a, b, c :| Digits(a) && Digits(b) && Digits(c) && base == a + "." + b + "." + c;
    DigitsPlain(a);
    DigitsPlain(b);
    DigitsPlain(c);
    SuffixPlain(x);
    assert v[0] == a[0];
  }
}
