/** JSON values and the field look-ups of the platform scripts. */
module PlatformJson {
  import opened Text

  /** A fraction keeps the text that `str` gives for it. `NonFinite` is `NaN` or an infinity. */
  datatype Json =
    | Null
    | Bool(b: bool)
    | Int(n: int)
    | Num(value: real, shown: string)
    | NonFinite(shown: string)
    | Str(s: string)
    | Arr(items: seq<Json>)
    | Obj(fields: map<string, Json>)

  /** The library calls the model leaves abstract: `json.loads` of a string, `str` of a list or an
      object, `str.lower`, `float` of a string (`None` unless it is a finite number). */
  datatype Library = Library(
    parse: string -> Option<Json>,
    show: Json -> string,
    lower: string -> string,
    toFloat: string -> Option<real>)

  function IntText(n: int): string { if n < 0 then "-" + Decimal(-n) else Decimal(n) }

  /** `str` */
  function ToString(lib: Library, v: Json): string {
    match v
    case Null => "None"
    case Bool(b) => if b then "True" else "False"
    case Int(n) => IntText(n)
    case Num(_, shown) => shown
    case NonFinite(shown) => shown
    case Str(s) => s
    case _ => lib.show(v)
  }

  /** The first of the keys that is present; a key with a null value counts. */
  function First(fields: map<string, Json>, keys: seq<string>): Json {
    if keys == [] then Null
    else if keys[0] in fields then fields[keys[0]]
    else First(fields, keys[1..])
  }

  /** The first key that is present decides, even if it holds null. */
  lemma {:induction false} FirstIs(fields: map<string, Json>, keys: seq<string>, n: nat)
    requires n < |keys| && keys[n] in fields && forall i :: 0 <= i < n ==> keys[i] !in fields
    ensures First(fields, keys) == fields[keys[n]]
  {
    if n > 0 { FirstIs(fields, keys[1..], n - 1); }
  }

  lemma {:induction false} FirstIsNull(fields: map<string, Json>, keys: seq<string>)
    requires forall i :: 0 <= i < |keys| ==> keys[i] !in fields
    ensures First(fields, keys) == Null
  {
    if keys != [] { FirstIsNull(fields, keys[1..]); }
  }

  function Get(fields: map<string, Json>, key: string): Json { First(fields, [key]) }

  /** A nested object, possibly given as its text. */
  function Opened(lib: Library, parent: Json): Json {
    if parent.Str? then
      match lib.parse(parent.s)
      case Some(v) => v
      case None => Null
    else parent
  }

  function FirstIn(lib: Library, parents: seq<Json>, keys: seq<string>): Json {
    if parents == [] then Null
    else
      var parent := Opened(lib, parents[0]);
      var found := if parent.Obj? then First(parent.fields, keys) else Null;
      if found != Null then found else FirstIn(lib, parents[1..], keys)
  }

  /** `_nested_first` */
  function NestedFirst(lib: Library, fields: map<string, Json>, keys: seq<string>): Json {
    var found := First(fields, keys);
    if found != Null then found
    else FirstIn(lib, [Get(fields, "scorecard"), Get(fields, "scoringDetails"), Get(fields, "scoring_details")], keys)
  }

  /** A parent object, given as such or as its text, has a value under one of the keys. */
  ghost predicate Within(lib: Library, fields: map<string, Json>, parent: string, keys: seq<string>, v: Json) {
    && v != Null && parent in fields
    && exists inner ::
         && (fields[parent] == Obj(inner) || (fields[parent].Str? && lib.parse(fields[parent].s) == Some(Obj(inner))))
         && First(inner, keys) == v
  }

  /** The value comes from the response itself, else from the first of the three parents that has one. */
  lemma NestedMeans(lib: Library, fields: map<string, Json>, keys: seq<string>)
    ensures var v := NestedFirst(lib, fields, keys);
            if First(fields, keys) != Null then v == First(fields, keys)
            else if exists w :: Within(lib, fields, "scorecard", keys, w) then Within(lib, fields, "scorecard", keys, v)
            else if exists w :: Within(lib, fields, "scoringDetails", keys, w)
            then Within(lib, fields, "scoringDetails", keys, v)
            else if exists w :: Within(lib, fields, "scoring_details", keys, w)
            then Within(lib, fields, "scoring_details", keys, v)
            else v == Null
  {
    hide First;
    Parents(lib, Get(fields, "scorecard"), Get(fields, "scoringDetails"), Get(fields, "scoring_details"), keys);
    ParentMeans(lib, fields, "scorecard", keys);
    ParentMeans(lib, fields, "scoringDetails", keys);
    ParentMeans(lib, fields, "scoring_details", keys);
  }

  /** What a parent has under the keys. */
  function InParent(lib: Library, parent: Json, keys: seq<string>): Json {
    var given := Opened(lib, parent);
    if given.Obj? then First(given.fields, keys) else Null
  }

  lemma Parents(lib: Library, a: Json, b: Json, c: Json, keys: seq<string>)
    ensures FirstIn(lib, [a, b, c], keys)
         == if InParent(lib, a, keys) != Null then InParent(lib, a, keys)
            else if InParent(lib, b, keys) != Null then InParent(lib, b, keys)
            else InParent(lib, c, keys)
  {
    hide First, Opened;
    assert [a, b, c][1..] == [b, c] && [b, c][1..] == [c] && [c][1..] == [];
    assert FirstIn(lib, [c], keys) == InParent(lib, c, keys);
    assert FirstIn(lib, [b, c], keys)
        == if InParent(lib, b, keys) != Null then InParent(lib, b, keys) else FirstIn(lib, [c], keys);
  }

  lemma ParentMeans(lib: Library, fields: map<string, Json>, parent: string, keys: seq<string>)
    ensures var v := InParent(lib, Get(fields, parent), keys);
            && (v != Null ==> Within(lib, fields, parent, keys, v))
            && forall w :: Within(lib, fields, parent, keys, w) ==> w == v
  {
    assert parent in fields ==> Get(fields, parent) == fields[parent];
    if parent !in fields { FirstIsNull(fields, [parent]); }
    hide First;
  }

  /** `str`, in words. */
  lemma ShownAs(lib: Library, v: Json)
    ensures v == Null ==> ToString(lib, v) == "None"
    ensures v == Bool(true) ==> ToString(lib, v) == "True"
    ensures v == Bool(false) ==> ToString(lib, v) == "False"
    ensures v.Int? && v.n >= 0 ==> Digits(ToString(lib, v)) && DigitsValue(ToString(lib, v)) == v.n
    ensures v.Int? && v.n < 0 ==> |ToString(lib, v)| > 1 && ToString(lib, v)[0] == '-'
                                  && Digits(ToString(lib, v)[1..]) && DigitsValue(ToString(lib, v)[1..]) == -v.n
    ensures v.Str? ==> ToString(lib, v) == v.s
    ensures v.Num? || v.NonFinite? ==> ToString(lib, v) == v.shown
  {
    hide Digits, DigitsValue;
    if v.Int? {
      DecimalMeans(if v.n < 0 then -v.n else v.n);
      assert ("-" + Decimal(if v.n < 0 then -v.n else v.n))[1..] == Decimal(if v.n < 0 then -v.n else v.n);
      NotEmpty(Decimal(if v.n < 0 then -v.n else v.n));
    }
  }

  lemma NotEmpty(d: string)
    requires Digits(d)
    ensures d != ""
  {}

  /** `_number` */
  function Number(v: Json): Option<real> {
    if v.Num? then Some(v.value) else if v.Int? then Some(v.n as real) else None
  }

  /** `_flag` */
  predicate Flag(lib: Library, v: Json) {
    match v
    case Bool(b) => b
    case Int(n) => n != 0
    case Num(x, _) => x != 0.0
    case NonFinite(_) => true
    case Str(s) => lib.lower(Strip(s)) in ["1", "true", "yes", "applied", "penalized"]
    case _ => false
  }

  const STATUSES: seq<string> := ["present", "redacted", "pending", "unavailable", "not_applicable"]

  /** `_status` */
  function Status(lib: Library, v: Json): (r: string)
    ensures r in STATUSES
  {
    match v
    case Bool(b) => if b then "present" else "unavailable"
    case Null => "unavailable"
    case Str(s) => if lib.lower(s) in STATUSES then lib.lower(s) else "present"
    case _ => "present"
  }

  /** `_evidence` */
  function Evidence(lib: Library, v: Json): (r: Option<string>)
    ensures r.Some? ==> r.value in STATUSES
  {
    match v
    case Bool(b) => Some(if b then "present" else "unavailable")
    case Str(s) => if lib.lower(Strip(s)) in STATUSES then Some(lib.lower(Strip(s))) else None
    case _ => None
  }

  /** A finite number, written with or without a fraction. */
  ghost predicate IsNumber(v: Json, x: real) {
    (exists n :: v == Int(n) && x == n as real) || (exists shown :: v == Num(x, shown))
  }

  lemma NumberMeans(v: Json, x: real)
    ensures Number(v) == Some(x) <==> IsNumber(v, x)
  {
    if v.Int? && Number(v) == Some(x) { assert v == Int(v.n); }
    if v.Num? && Number(v) == Some(x) { assert v == Num(x, v.shown); }
  }

  /** A text that, stripped and lower-cased, is one of the words. */
  predicate Word(lib: Library, v: Json, words: seq<string>) { v.Str? && lib.lower(Strip(v.s)) in words }

  lemma FlagMeans(lib: Library, v: Json)
    ensures Flag(lib, v) <==> || v == Bool(true) || (v.Int? && v != Int(0)) || v.NonFinite?
                              || (v.Num? && v.value != 0.0)
                              || Word(lib, v, ["1", "true", "yes", "applied", "penalized"])
  {}

  /** The status of a value: its own word, or whether there is one. */
  lemma StatusMeans(lib: Library, v: Json)
    ensures Status(lib, v) == "unavailable"
            <==> v == Null || v == Bool(false) || (v.Str? && lib.lower(v.s) == "unavailable")
    ensures Status(lib, v) == "redacted" <==> v.Str? && lib.lower(v.s) == "redacted"
    ensures Status(lib, v) == "pending" <==> v.Str? && lib.lower(v.s) == "pending"
    ensures Status(lib, v) == "not_applicable" <==> v.Str? && lib.lower(v.s) == "not_applicable"
    ensures Status(lib, v) in ["present", "redacted", "pending", "unavailable", "not_applicable"]
  {
    assert lib.lower(if v.Str? then v.s else "") in STATUSES
      ==> lib.lower(if v.Str? then v.s else "") in ["present", "redacted", "pending", "unavailable", "not_applicable"];
  }

  /** Evidence is a truth value or one of the five words. */
  lemma EvidenceMeans(lib: Library, v: Json)
    ensures Evidence(lib, v) == Some("present") <==> v == Bool(true) || Word(lib, v, ["present"])
    ensures Evidence(lib, v) == Some("unavailable") <==> v == Bool(false) || Word(lib, v, ["unavailable"])
    ensures Evidence(lib, v) == Some("redacted") <==> Word(lib, v, ["redacted"])
    ensures Evidence(lib, v) == Some("pending") <==> Word(lib, v, ["pending"])
    ensures Evidence(lib, v) == Some("not_applicable") <==> Word(lib, v, ["not_applicable"])
    ensures Evidence(lib, v).Some? ==>
              Evidence(lib, v).value in ["present", "redacted", "pending", "unavailable", "not_applicable"]
  {}
}
