/** Character classes and string helpers shared by the models of the Python scripts. */
module Text {

  datatype Option<+T> = None | Some(value: T)

  datatype Result<+T, +E> = Ok(value: T) | Err(error: E)

  /** White space as `str.strip`, `str.split` and the regular expression `\s` see it. */
  predicate IsSpace(c: char) {
    var n := c as int;
    || 9 <= n <= 13 || 28 <= n <= 32 || n == 0x85 || n == 0xA0 || n == 0x1680
    || 0x2000 <= n <= 0x200A || n == 0x2028 || n == 0x2029 || n == 0x202F
    || n == 0x205F || n == 0x3000
  }

  predicate IsDigit(c: char) { '0' <= c <= '9' }

  /** `[0-9a-f]` */
  predicate IsHexDigit(c: char) { IsDigit(c) || 'a' <= c <= 'f' }

  predicate AllSpace(t: string) { forall i :: 0 <= i < |t| ==> IsSpace(t[i]) }

  predicate NoSpace(t: string) { forall i :: 0 <= i < |t| ==> !IsSpace(t[i]) }

  /** `[0-9]+` */
  predicate Digits(t: string) { t != "" && forall i :: 0 <= i < |t| ==> IsDigit(t[i]) }

  /** `[0-9a-f]+` */
  predicate Hex(t: string) { t != "" && forall i :: 0 <= i < |t| ==> IsHexDigit(t[i]) }

  /** The longest run of leading white space. */
  function LeadingSpace(t: string): (w: string)
    ensures AllSpace(w)
  {
    if t == "" || !IsSpace(t[0]) then "" else [t[0]] + LeadingSpace(t[1..])
  }

  /** The text left after that run. */
  function SkipSpace(t: string): (u: string)
    ensures u != "" ==> !IsSpace(u[0])
    ensures t == LeadingSpace(t) + u
  {
    if t == "" || !IsSpace(t[0]) then t else
      assert t == [t[0]] + t[1..];
      SkipSpace(t[1..])
  }

  lemma {:induction false} SkipSpaceConcat(x: string, s: string)
    ensures SkipSpace(x + s) == if SkipSpace(x) == "" then SkipSpace(s) else SkipSpace(x) + s
  {
    if x == "" {
      assert x + s == s;
    } else if IsSpace(x[0]) {
      assert (x + s)[1..] == x[1..] + s;
      SkipSpaceConcat(x[1..], s);
    }
  }

  lemma {:induction false} SkipAllSpace(w: string, s: string)
    requires AllSpace(w)
    ensures SkipSpace(w) == "" && SkipSpace(w + s) == SkipSpace(s)
  {
    if w == "" {
      assert w + s == s;
    } else {
      assert (w + s)[1..] == w[1..] + s;
      SkipAllSpace(w[1..], s);
    }
  }

  /** The first line, with its line break if it has one. */
  function FirstLine(t: string): (l: string)
    ensures t != "" ==> l != ""
    ensures '\n' in t ==> l != "" && l[|l| - 1] == '\n' && '\n' !in l[..|l| - 1]
  {
    if t == "" then "" else if t[0] == '\n' then "\n" else
      var l := FirstLine(t[1..]);
      assert '\n' in t ==> ([t[0]] + l)[..|[t[0]] + l| - 1] == [t[0]] + l[..|l| - 1];
      [t[0]] + l
  }

  /** The text after the first line break, or nothing when there is none. */
  function NextLine(t: string): (u: string)
    ensures t == FirstLine(t) + u
    ensures '\n' !in t ==> u == ""
  {
    if t == "" then "" else
      assert t == [t[0]] + t[1..];
      if t[0] == '\n' then t[1..] else
        var u := NextLine(t[1..]);
        assert '\n' in t[1..] ==> '\n' in t;
        Assoc([t[0]], FirstLine(t[1..]), u);
        u
  }

  lemma {:induction false} NextLineConcat(x: string, s: string)
    ensures NextLine(x + s) == if '\n' in x then NextLine(x) + s else NextLine(s)
  {
    if x == "" {
      assert x + s == s;
    } else if x[0] != '\n' {
      assert (x + s)[1..] == x[1..] + s;
      assert '\n' in x <==> '\n' in x[1..];
      NextLineConcat(x[1..], s);
    } else {
      assert (x + s)[1..] == x[1..] + s;
    }
  }

  /** A text made of complete lines: empty, or ending in a line break. */
  predicate CompleteLines(x: string) { x == "" || x[|x| - 1] == '\n' }

  lemma Slices<T>(x: seq<T>, s: seq<T>, n: nat)
    requires n <= |x|
    ensures (x + s)[n..] == x[n..] + s && (x + s)[..n] == x[..n]
  {}

  lemma DropDrop<T>(x: seq<T>, n: nat, m: nat)
    requires n + m <= |x|
    ensures x[n..][m..] == x[n + m..]
  {}

  lemma Assoc<T>(a: seq<T>, b: seq<T>, c: seq<T>)
    ensures a + b + c == a + (b + c)
  {}

  lemma SpaceSuffix(a: string, b: string)
    requires AllSpace(a + b)
    ensures AllSpace(b)
  {
    forall i | 0 <= i < |b| ensures IsSpace(b[i]) { assert b[i] == (a + b)[|a| + i]; }
  }

  /** `str.rstrip` */
  function TrimEnd(s: string): (t: string)
    ensures t <= s && (t != "" ==> !IsSpace(t[|t| - 1]))
  {
    if s != "" && IsSpace(s[|s| - 1]) then TrimEnd(s[..|s| - 1]) else s
  }

  /** `str.strip` */
  function Strip(s: string): string { TrimEnd(SkipSpace(s)) }

  predicate Blank(s: string) { Strip(s) == "" }

  /** Stripping removes the white space around a text and nothing else. */
  lemma StripMeans(v: string, t: string, w: string)
    requires AllSpace(v) && AllSpace(w)
    requires t != "" ==> !IsSpace(t[0]) && !IsSpace(t[|t| - 1])
    ensures Strip(v + t + w) == t
  {
    Assoc(v, t, w);
    SkipAllSpace(v, t + w);
    if t == "" {
      assert t + w == w;
      SkipAllSpace(w, "");
      assert w + "" == w;
    } else {
      assert (t + w)[0] == t[0];
      TrimEndSpace(t, w);
    }
  }

  lemma {:induction false} TrimEndSpace(t: string, w: string)
    requires AllSpace(w) && t != "" && !IsSpace(t[|t| - 1])
    ensures TrimEnd(t + w) == t
  {
    if w == "" {
      assert t + w == t;
    } else {
      assert (t + w)[|t + w| - 1] == w[|w| - 1];
      assert (t + w)[..|t + w| - 1] == t + w[..|w| - 1];
      TrimEndSpace(t, w[..|w| - 1]);
    }
  }

  lemma StripTwice(s: string)
    ensures Strip(Strip(s)) == Strip(s)
  {
    var t := Strip(s);
    if t != "" {
      assert t[0] == SkipSpace(s)[0];
      assert SkipSpace(t) == t;
      assert TrimEnd(t) == t;
    }
  }

  /** The decimal digits of a number. */
  function Decimal(n: nat): (d: string)
    ensures Digits(d)
  {
    if n < 10 then [('0' as int + n) as char] else Decimal(n / 10) + [('0' as int + n % 10) as char]
  }

  /** The number that digits stand for. */
  function DigitsValue(d: string): int {
    if d == "" then 0 else 10 * DigitsValue(d[..|d| - 1]) + (d[|d| - 1] as int - '0' as int)
  }

  /** The text stands for the number and starts with no superfluous zero. */
  lemma {:induction false} DecimalMeans(n: nat)
    ensures DigitsValue(Decimal(n)) == n && (n >= 10 ==> Decimal(n)[0] != '0')
  {
    var d := Decimal(n);
    if n >= 10 {
      assert d[..|d| - 1] == Decimal(n / 10) && d[0] == Decimal(n / 10)[0];
      DecimalMeans(n / 10);
    } else {
      assert d[..0] == "";
    }
  }

  lemma {:induction false} DecimalInjective(n: nat, m: nat)
    requires Decimal(n) == Decimal(m)
    ensures n == m
  {
    var d, e := Decimal(n), Decimal(m);
    assert d[|d| - 1] == e[|e| - 1];
    assert d[..|d| - 1] == e[..|e| - 1];
    if n >= 10 && m >= 10 {
      assert d[..|d| - 1] == Decimal(n / 10) && e[..|e| - 1] == Decimal(m / 10);
      DecimalInjective(n / 10, m / 10);
    }
  }
}
