/** The asset list of a release, as it is read from GitHub's reply. */
module ReleaseListing {
  import opened Text
  import opened ReleaseKeys
  import opened ReleaseStore

  /** One entry of the reply; a field that is missing or of the wrong type is `None`. */
  datatype Item =
    | NotAnObject
    | Item(name: Option<string>, size: Option<int>, state: Option<string>, digest: Option<string>)

  datatype Reply = NotAList | Items(items: seq<Item>)

  datatype ListingError = InvalidReply | InvalidItem(item: Item) | NoAssets

  const DIGEST_PREFIX := "sha256:"

  /** `sha256:[0-9a-f]{64}` */
  predicate IsDigest(d: string) {
    |d| == |DIGEST_PREFIX| + 64 && DIGEST_PREFIX <= d && Hex(d[|DIGEST_PREFIX|..])
  }

  /** The components of a path. */
  function Components(s: string): (cs: seq<string>)
    ensures cs != [] && forall c :: c in cs ==> '/' !in c
  {
    if s == "" then [""]
    else
      var rest := Components(s[1..]);
      if s[0] == '/' then [""] + rest else [[s[0]] + rest[0]] + rest[1..]
  }

  /** The last component that stands for something, or what is left without one. */
  function LastReal(cs: seq<string>, default: string): string {
    if cs == [] then default
    else if cs[|cs| - 1] == "" || cs[|cs| - 1] == "." then LastReal(cs[..|cs| - 1], default)
    else cs[|cs| - 1]
  }

  /** `(directory / name).name`, where `directory` is called `assets`. */
  function PathName(name: string): string {
    LastReal(Components(name), if name != "" && name[0] == '/' then "" else "assets")
  }

  /** A name that is one path component. */
  predicate Bare(name: string) { name != "" && name != "." && '/' !in name }

  lemma {:induction false} OneComponent(s: string)
    requires '/' !in s
    ensures Components(s) == [s]
  {
    if s != "" {
      OneComponent(s[1..]);
      assert [s[0]] + s[1..] == s;
    }
  }

  lemma BareName(name: string)
    requires Bare(name)
    ensures PathName(name) == name
  {
    OneComponent(name);
  }

  lemma {:induction false} ComponentsConcat(d: string, n: string)
    ensures Components(d + "/" + n) == Components(d) + Components(n)
  {
    var s := d + "/" + n;
    if d == "" {
      assert s[1..] == n;
    } else {
      assert s[1..] == d[1..] + "/" + n;
      ComponentsConcat(d[1..], n);
      var cs := Components(d[1..]);
      if d[0] == '/' {
        assert [""] + (cs + Components(n)) == ([""] + cs) + Components(n);
      } else {
        assert [[d[0]] + cs[0]] + (cs + Components(n))[1..] == ([[d[0]] + cs[0]] + cs[1..]) + Components(n);
      }
    }
  }

  /** The file name behind the last separator. */
  lemma PathNameLast(d: string, n: string)
    requires n != "" && n != "." && '/' !in n
    ensures PathName(d + "/" + n) == n
  {
    ComponentsConcat(d, n);
    OneComponent(n);
  }

  /** Separators and single dots at the end do not count. */
  lemma PathNameEnds(d: string)
    requires d != ""
    ensures PathName(d + "/") == PathName(d) && PathName(d + "/.") == PathName(d)
  {
    hide LastReal;
    ComponentsConcat(d, "");
    ComponentsConcat(d, ".");
    OneComponent("");
    OneComponent(".");
    assert d + "/" + "" == d + "/" && d + "/" + "." == d + "/.";
    LastSkips(Components(d), "", if d[0] == '/' then "" else "assets");
    LastSkips(Components(d), ".", if d[0] == '/' then "" else "assets");
    assert (d + "/")[0] == d[0] && (d + "/.")[0] == d[0];
  }

  /** Without a name of its own the path has that of the directory, or none at the root. */
  lemma PathNameNone()
    ensures PathName("") == "assets" && PathName(".") == "assets" && PathName("/") == ""
  {
    OneComponent("");
    OneComponent(".");
    ComponentsConcat("", "");
    assert "" + "/" + "" == "/" && [""] + [""] == ["", ""];
    assert [] + [""] == [""] && [] + ["."] == ["."];
    LastSkips([], "", "assets");
    LastSkips([], ".", "assets");
    LastSkips([], "", "");
    LastSkips([""], "", "");
  }

  lemma LastSkips(cs: seq<string>, c: string, default: string)
    requires c == "" || c == "."
    ensures LastReal(cs + [c], default) == LastReal(cs, default)
  {
    assert (cs + [c])[..|cs|] == cs;
  }

  /** Whether the entry is looked at: an `assets` run passes over uploads in progress. */
  predicate Seen(item: Item, assetsOnly: bool)
    requires item.Item?
  {
    assetsOnly ==> item.state == Some("uploaded")
  }

  predicate Acceptable(item: Item)
    requires item.Item?
  {
    && item.name.Some? && item.name.value != "" && item.name.value != METADATA
    && item.size.Some? && item.size.value >= 0
    && item.state == Some("uploaded")
    && item.digest.Some? && IsDigest(item.digest.value)
  }

  function AssetOf(item: Item): Asset
    requires item.Item? && Acceptable(item)
  {
    Asset(PathName(item.name.value), item.size.value, item.digest.value[|DIGEST_PREFIX|..])
  }

  /** The order of code points. */
  predicate Before(a: string, b: string) {
    if b == "" then false
    else if a == "" then true
    else if a[0] != b[0] then a[0] < b[0]
    else Before(a[1..], b[1..])
  }

  lemma {:induction false} BeforeOrder(a: string, b: string)
    ensures !(Before(a, b) && Before(b, a))
    ensures a == b || Before(a, b) || Before(b, a)
  {
    if a != "" && b != "" && a[0] == b[0] {
      BeforeOrder(a[1..], b[1..]);
      if a[1..] == b[1..] { assert a == [a[0]] + a[1..] == b; }
    }
  }

  /** The texts differ here for the first time. */
  predicate FirstDifference(a: string, b: string, k: nat) {
    k < |a| && k < |b| && a[k] != b[k] && forall i :: 0 <= i < k ==> a[i] == b[i]
  }

  /** A text is before its extensions, and otherwise the first difference decides. */
  lemma BeforeMeans(a: string, b: string)
    ensures a < b ==> Before(a, b)
    ensures forall k: nat :: FirstDifference(a, b, k) ==> (Before(a, b) <==> a[k] < b[k])
    ensures Before(a, b) ==> a < b || exists k: nat :: FirstDifference(a, b, k)
  {
    if a < b { PrefixBefore(a, b); }
    forall k: nat | FirstDifference(a, b, k) ensures Before(a, b) <==> a[k] < b[k] { DifferenceDecides(a, b, k); }
    if Before(a, b) && !(a < b) { var k := SomeDifference(a, b); }
  }

  lemma {:induction false} PrefixBefore(a: string, b: string)
    requires a < b
    ensures Before(a, b)
  {
    if a != "" { PrefixBefore(a[1..], b[1..]); }
  }

  lemma {:induction false} DifferenceDecides(a: string, b: string, k: nat)
    requires FirstDifference(a, b, k)
    ensures Before(a, b) <==> a[k] < b[k]
  {
    if k > 0 { DifferenceDecides(a[1..], b[1..], k - 1); }
  }

  lemma {:induction false} SomeDifference(a: string, b: string) returns (k: nat)
    requires Before(a, b) && !(a < b)
    ensures FirstDifference(a, b, k)
  {
    if a[0] != b[0] {
      k := 0;
    } else {
      assert a[1..] < b[1..] ==> a < b;
      var m := SomeDifference(a[1..], b[1..]);
      k := m + 1;
      forall i | 0 <= i < k ensures a[i] == b[i] { if i > 0 { assert a[1..][i - 1] == b[1..][i - 1]; } }
    }
  }

  lemma {:induction false} BeforeTransitive(a: string, b: string, c: string)
    requires Before(a, b) && Before(b, c)
    ensures Before(a, c)
  {
    if a != "" && a[0] == b[0] == c[0] { BeforeTransitive(a[1..], b[1..], c[1..]); }
  }

  /** Stable insertion by name. */
  function Insert(sorted: seq<Asset>, a: Asset): seq<Asset> {
    if sorted == [] then [a]
    else if Before(a.name, sorted[0].name) then [a] + sorted
    else [sorted[0]] + Insert(sorted[1..], a)
  }

  /** `sorted(…, key=…name)` */
  function Sort(assets: seq<Asset>): seq<Asset> {
    if assets == [] then [] else Insert(Sort(assets[..|assets| - 1]), assets[|assets| - 1])
  }

  predicate Ascending(xs: seq<Asset>) {
    forall i, j :: 0 <= i < j < |xs| ==> !Before(xs[j].name, xs[i].name)
  }

  lemma NoneBefore(sorted: seq<Asset>, a: Asset)
    requires Ascending(sorted) && sorted != [] && Before(a.name, sorted[0].name)
    ensures Ascending([a] + sorted)
  {
    forall j | 0 <= j < |sorted| ensures !Before(sorted[j].name, a.name) {
      if Before(sorted[j].name, a.name) {
        BeforeTransitive(sorted[j].name, a.name, sorted[0].name);
        BeforeOrder(sorted[0].name, sorted[0].name);
      }
    }
  }

  lemma InFront(x: Asset, tail: seq<Asset>)
    requires Ascending(tail) && forall t :: t in tail ==> !Before(t.name, x.name)
    ensures Ascending([x] + tail)
  {}

  lemma {:induction false} InsertSorts(sorted: seq<Asset>, a: Asset)
    requires Ascending(sorted)
    ensures Ascending(Insert(sorted, a))
    ensures multiset(Insert(sorted, a)) == multiset(sorted) + multiset{a}
  {
    hide Before;
    if sorted != [] {
      var x := sorted[0];
      var rest := sorted[1..];
      assert sorted == [x] + rest;
      if Before(a.name, x.name) {
        NoneBefore(sorted, a);
      } else {
        InsertSorts(rest, a);
        var tail := Insert(rest, a);
        BeforeOrder(x.name, x.name);
        forall t | t in tail ensures !Before(t.name, x.name) {
          assert t in multiset(tail);
        }
        InFront(x, tail);
      }
    }
  }

  lemma {:induction false} SortSorts(assets: seq<Asset>)
    ensures Ascending(Sort(assets)) && multiset(Sort(assets)) == multiset(assets)
  {
    if assets != [] {
      var front := assets[..|assets| - 1];
      SortSorts(front);
      InsertSorts(Sort(front), assets[|assets| - 1]);
      assert assets == front + [assets[|assets| - 1]];
    }
  }

  lemma HeadLeast(xs: seq<Asset>, ys: seq<Asset>)
    requires Ascending(xs) && Ascending(ys) && multiset(xs) == multiset(ys) && xs != [] && ys != []
    ensures xs[0].name == ys[0].name
  {
    assert xs[0] in multiset(ys) && ys[0] in multiset(xs);
    BeforeOrder(xs[0].name, ys[0].name);
  }

  lemma TailsSame(xs: seq<Asset>, ys: seq<Asset>)
    requires xs != [] && ys != [] && xs[0] == ys[0] && multiset(xs) == multiset(ys)
    ensures multiset(xs[1..]) == multiset(ys[1..])
  {
    assert xs == [xs[0]] + xs[1..] && ys == [ys[0]] + ys[1..];
    assert multiset(xs[1..]) == multiset(xs) - multiset{xs[0]};
  }

  lemma SameLength(xs: seq<Asset>, ys: seq<Asset>)
    requires multiset(xs) == multiset(ys)
    ensures |xs| == |ys|
  {
    assert |multiset(xs)| == |xs| && |multiset(ys)| == |ys|;
  }

  /** There is only one way to order assets of distinct names. */
  lemma {:induction false} AscendingUnique(xs: seq<Asset>, ys: seq<Asset>)
    requires Ascending(xs) && Ascending(ys) && multiset(xs) == multiset(ys) && Distinct(xs)
    ensures xs == ys
  {
    hide Before;
    SameLength(xs, ys);
    if xs != [] {
      HeadLeast(xs, ys);
      assert ys[0] in multiset(xs);
      DistinctNames(xs, xs[0], ys[0]);
      TailsSame(xs, ys);
      AscendingUnique(xs[1..], ys[1..]);
      assert xs == [xs[0]] + xs[1..] && ys == [ys[0]] + ys[1..];
    }
  }

  /** The entries that are looked at. */
  function Kept(items: seq<Item>, assetsOnly: bool): (kept: seq<Item>)
    requires forall x :: x in items ==> x.Item?
    ensures forall x :: x in kept <==> x in items && Seen(x, assetsOnly)
  {
    if items == [] then []
    else
      var rest := Kept(items[..|items| - 1], assetsOnly);
      var last := items[|items| - 1];
      assert items == items[..|items| - 1] + [last];
      if Seen(last, assetsOnly) then rest + [last] else rest
  }

  predicate AllAcceptable(items: seq<Item>) {
    forall x :: x in items ==> x.Item? && Acceptable(x)
  }

  predicate RawDistinct(items: seq<Item>)
    requires AllAcceptable(items)
  {
    forall i, j :: 0 <= i < j < |items| ==> items[i].name != items[j].name
  }

  /** What the script accepts. */
  predicate GoodListing(reply: Reply, assetsOnly: bool) {
    && reply.Items?
    && (forall x :: x in reply.items ==> x.Item?)
    && var kept := Kept(reply.items, assetsOnly);
       kept != [] && AllAcceptable(kept) && RawDistinct(kept)
  }

  function AssetsOf(kept: seq<Item>): (assets: seq<Asset>)
    requires AllAcceptable(kept)
    ensures |assets| == |kept| && forall i :: 0 <= i < |kept| ==> assets[i] == AssetOf(kept[i])
  {
    seq(|kept|, i requires 0 <= i < |kept| => AssetOf(kept[i]))
  }

  function AssetList(reply: Reply, assetsOnly: bool): seq<Asset>
    requires GoodListing(reply, assetsOnly)
  {
    Sort(AssetsOf(Kept(reply.items, assetsOnly)))
  }

  /** What the loop holds after the entries it kept. */
  ghost predicate Collected(kept: seq<Item>, names: set<string>, expected: seq<Asset>) {
    && AllAcceptable(kept) && RawDistinct(kept)
    && expected == AssetsOf(kept)
    && forall n :: n in names <==> exists i :: 0 <= i < |kept| && kept[i].name == Some(n)
  }

  lemma CollectMore(kept: seq<Item>, names: set<string>, expected: seq<Asset>, item: Item)
    requires Collected(kept, names, expected) && item.Item? && Acceptable(item) && item.name.value !in names
    ensures Collected(kept + [item], names + {item.name.value}, expected + [AssetOf(item)])
  {
    var more := kept + [item];
    var names' := names + {item.name.value};
    forall n ensures n in names' <==> exists i :: 0 <= i < |more| && more[i].name == Some(n) {
      if i :| 0 <= i < |kept| && kept[i].name == Some(n) { assert more[i].name == Some(n); }
      if n == item.name.value { assert more[|kept|].name == Some(n); }
    }
  }

  // --- what is accepted, and what becomes of it ---

  /** The item counts: an `assets` run passes over uploads in progress. */
  predicate Counts(item: Item, assetsOnly: bool) {
    item.Item? && (assetsOnly ==> item.state == Some("uploaded"))
  }

  /** An uploaded file with a name, a size and a digest. */
  ghost predicate Uploaded(item: Item) {
    && item.Item? && item.state == Some("uploaded")
    && item.name.Some? && item.name.value != "" && item.name.value != "release.json"
    && item.size.Some? && item.size.value >= 0
    && exists h: string :: item.digest == Some("sha256:" + h) && |h| == 64 && forall c :: c in h ==> c in "0123456789abcdef"
  }

  /** The item gives rise to this asset. */
  predicate Gives(item: Item, assetsOnly: bool, a: Asset) {
    && Counts(item, assetsOnly)
    && item.name.Some? && PathName(item.name.value) == a.name
    && item.size == Some(a.size) && item.digest == Some("sha256:" + a.sha256)
  }

  function Sources(items: seq<Item>, assetsOnly: bool, a: Asset): set<nat> {
    set i: nat | 0 <= i < |items| && Gives(items[i], assetsOnly, a)
  }

  /** A reply is accepted exactly if it is a list of objects, something counts, and all that counts is
      uploaded, under different names. */
  lemma ListingMeans(reply: Reply, assetsOnly: bool)
    ensures GoodListing(reply, assetsOnly) <==>
              && reply.Items? && (forall x :: x in reply.items ==> x.Item?)
              && (exists x :: x in reply.items && Counts(x, assetsOnly))
              && (forall x :: x in reply.items && Counts(x, assetsOnly) ==> Uploaded(x))
              && CountedDistinct(reply.items, assetsOnly)
  {
    hide Acceptable, Uploaded, Kept;
    if reply.Items? && forall x :: x in reply.items ==> x.Item? {
      var kept := Kept(reply.items, assetsOnly);
      forall x: Item | x.Item? ensures Acceptable(x) <==> Uploaded(x) { UploadedMeans(x); }
      assert kept != [] ==> kept[0] in kept;
      if AllAcceptable(kept) { KeptNames(reply.items, assetsOnly); }
    }
  }

  lemma HexChar(c: char)
    ensures c in "0123456789abcdef" <==> IsHexDigit(c)
  {
    var s := "0123456789abcdef";
    if IsDigit(c) {
      assert s[c as int - '0' as int] == c;
    } else if 'a' <= c <= 'f' {
      assert s[10 + (c as int - 'a' as int)] == c;
    }
  }

  lemma HexChars(h: string)
    ensures (forall c :: c in h ==> c in "0123456789abcdef") <==> forall i :: 0 <= i < |h| ==> IsHexDigit(h[i])
  {
    hide IsHexDigit;
    forall c: char ensures c in "0123456789abcdef" <==> IsHexDigit(c) { HexChar(c); }
    assert forall i :: 0 <= i < |h| ==> h[i] in h;
  }

  lemma UploadedMeans(item: Item)
    requires item.Item?
    ensures Acceptable(item) <==> Uploaded(item)
  {
    hide IsHexDigit;
    if item.digest.Some? {
      var d := item.digest.value;
      if IsDigest(d) {
        var h := d[|DIGEST_PREFIX|..];
        HexChars(h);
        assert d == "sha256:" + h;
      }
      if h: string :| d == "sha256:" + h && |h| == 64 && forall c :: c in h ==> c in "0123456789abcdef" {
        HexChars(h);
        assert d[|DIGEST_PREFIX|..] == h;
      }
    }
  }

  /** The names of all that counts are different. */
  predicate CountedDistinct(items: seq<Item>, assetsOnly: bool) {
    forall i, j :: 0 <= i < j < |items| && Counts(items[i], assetsOnly) && Counts(items[j], assetsOnly) ==>
      items[i].name != items[j].name
  }

  lemma CountedSnoc(front: seq<Item>, last: Item, assetsOnly: bool)
    ensures CountedDistinct(front + [last], assetsOnly) <==>
              && CountedDistinct(front, assetsOnly)
              && (Counts(last, assetsOnly) ==> forall x :: x in front && Counts(x, assetsOnly) ==> x.name != last.name)
  {
    var items := front + [last];
    assert items[|front|] == last && forall i :: 0 <= i < |front| ==> items[i] == front[i];
    if CountedDistinct(items, assetsOnly) && Counts(last, assetsOnly) {
      forall x | x in front && Counts(x, assetsOnly) ensures x.name != last.name {
        var i :| 0 <= i < |front| && front[i] == x;
        assert items[i].name != items[|front|].name;
      }
    }
  }

  lemma RawSnoc(front: seq<Item>, last: Item)
    requires AllAcceptable(front + [last])
    ensures AllAcceptable(front)
    ensures RawDistinct(front + [last]) <==> RawDistinct(front) && forall x :: x in front ==> x.name != last.name
  {
    hide Acceptable;
    var items := front + [last];
    assert items[|front|] == last && forall i :: 0 <= i < |front| ==> items[i] == front[i];
    assert forall x :: x in front ==> x in items;
    if RawDistinct(items) {
      forall x | x in front ensures x.name != last.name {
        var i :| 0 <= i < |front| && front[i] == x;
        assert items[i].name != items[|front|].name;
      }
    }
  }

  lemma KeptSnoc(front: seq<Item>, last: Item, assetsOnly: bool)
    requires forall x :: x in front + [last] ==> x.Item?
    ensures forall x :: x in front ==> x.Item?
    ensures last.Item?
    ensures Kept(front + [last], assetsOnly)
         == if Seen(last, assetsOnly) then Kept(front, assetsOnly) + [last] else Kept(front, assetsOnly)
  {
    assert last in front + [last] && (front + [last])[..|front|] == front;
  }

  /** The names of what is kept are distinct exactly if those of what counts are. */
  lemma {:induction false} KeptNames(items: seq<Item>, assetsOnly: bool)
    requires (forall x :: x in items ==> x.Item?) && AllAcceptable(Kept(items, assetsOnly))
    ensures RawDistinct(Kept(items, assetsOnly)) <==> CountedDistinct(items, assetsOnly)
  {
    hide Acceptable, AllAcceptable, Kept, RawDistinct, CountedDistinct;
    if items == [] {
      NoNames(assetsOnly);
    } else {
      var front, last := items[..|items| - 1], items[|items| - 1];
      assert items == front + [last];
      KeptSnoc(front, last, assetsOnly);
      if Seen(last, assetsOnly) { RawSnoc(Kept(front, assetsOnly), last); }
      KeptNames(front, assetsOnly);
      CountedSnoc(front, last, assetsOnly);
    }
  }

  lemma NoNames(assetsOnly: bool)
    ensures Kept([], assetsOnly) == [] && RawDistinct([]) && CountedDistinct([], assetsOnly)
  {}

  lemma SourcesSnoc(front: seq<Item>, last: Item, assetsOnly: bool, a: Asset)
    ensures Sources(front + [last], assetsOnly, a)
         == Sources(front, assetsOnly, a) + if Gives(last, assetsOnly, a) then {|front|} else {}
  {
    hide Gives;
    var items := front + [last];
    assert items[|front|] == last && forall i :: 0 <= i < |front| ==> items[i] == front[i];
  }

  lemma GivesMeans(item: Item, assetsOnly: bool, a: Asset)
    requires item.Item? && Acceptable(item) && Seen(item, assetsOnly)
    ensures Gives(item, assetsOnly, a) <==> AssetOf(item) == a
  {
    hide PathName;
    var d := item.digest.value;
    assert d == "sha256:" + d[|DIGEST_PREFIX|..];
    assert ("sha256:" + a.sha256)[7..] == a.sha256;
  }

  /** Each asset is in the list as often as the reply has items that give it. */
  lemma {:induction false} AssetsCounted(items: seq<Item>, assetsOnly: bool, a: Asset)
    requires (forall x :: x in items ==> x.Item?) && AllAcceptable(Kept(items, assetsOnly))
    ensures multiset(AssetsOf(Kept(items, assetsOnly)))[a] == |Sources(items, assetsOnly, a)|
  {
    hide Acceptable, Kept, Gives, Sources, AssetOf;
    if items == [] {
      NoSources(assetsOnly, a);
    } else {
      var front, last := items[..|items| - 1], items[|items| - 1];
      assert items == front + [last];
      KeptSnoc(front, last, assetsOnly);
      SourcesSnoc(front, last, assetsOnly, a);
      SourcesBelow(front, assetsOnly, a);
      if Seen(last, assetsOnly) {
        var before := Kept(front, assetsOnly);
        assert last in before + [last] && forall x :: x in before ==> x in before + [last];
        GivesMeans(last, assetsOnly, a);
        assert AssetsOf(before + [last]) == AssetsOf(before) + [AssetOf(last)];
      } else {
        NotGiven(last, assetsOnly, a);
      }
      AssetsCounted(front, assetsOnly, a);
    }
  }

  lemma NoSources(assetsOnly: bool, a: Asset)
    ensures Kept([], assetsOnly) == [] && Sources([], assetsOnly, a) == {}
  {}

  lemma SourcesBelow(items: seq<Item>, assetsOnly: bool, a: Asset)
    ensures |items| !in Sources(items, assetsOnly, a)
  {}

  lemma NotGiven(item: Item, assetsOnly: bool, a: Asset)
    requires item.Item? && !Seen(item, assetsOnly)
    ensures !Gives(item, assetsOnly, a)
  {}

  lemma ListCounted(reply: Reply, assetsOnly: bool)
    requires GoodListing(reply, assetsOnly)
    ensures forall a :: multiset(AssetList(reply, assetsOnly))[a] == |Sources(reply.items, assetsOnly, a)|
    ensures Ascending(AssetList(reply, assetsOnly))
  {
    SortSorts(AssetsOf(Kept(reply.items, assetsOnly)));
    forall a ensures multiset(AssetList(reply, assetsOnly))[a] == |Sources(reply.items, assetsOnly, a)| {
      AssetsCounted(reply.items, assetsOnly, a);
    }
  }

  /** `get_release_metadata` after the request. */
  method GetReleaseMetadata(reply: Reply, assetsOnly: bool) returns (r: Result<seq<Asset>, ListingError>)
    ensures r.Ok? <==> GoodListing(reply, assetsOnly)
    ensures r.Ok? ==> r.value == AssetList(reply, assetsOnly)
    ensures r.Ok? ==> Ascending(r.value) && forall a :: multiset(r.value)[a] == |Sources(reply.items, assetsOnly, a)|
  {
    hide Collected, Sort, IsDigest, Ascending, Sources;
    if reply.NotAList? { return Err(InvalidReply); }
    var names: set<string> := {};
    var expected: seq<Asset> := [];
    var items := reply.items;
    CollectNone();
    for i := 0 to |items|
      invariant forall x :: x in items[..i] ==> x.Item?
      invariant Collected(Kept(items[..i], assetsOnly), names, expected)
    {
      var item := items[i];
      if item.NotAnObject? {
        assert item in items;
        return Err(InvalidItem(item));
      }
      KeptNext(items, assetsOnly, i);
      if Seen(item, assetsOnly) {
        if !Acceptable(item) || item.name.value in names {
          Refused(items, assetsOnly, i, names, expected);
          return Err(InvalidItem(item));
        }
        CollectMore(Kept(items[..i], assetsOnly), names, expected, item);
        names := names + {item.name.value};
        expected := expected + [AssetOf(item)];
      }
    }
    assert items[..|items|] == items;
    CollectedMeans(Kept(items, assetsOnly), names, expected);
    if expected == [] { return Err(NoAssets); }
    ListCounted(reply, assetsOnly);
    return Ok(Sort(expected));
  }

  lemma CollectNone()
    ensures Collected([], {}, [])
  {}

  lemma CollectedMeans(kept: seq<Item>, names: set<string>, expected: seq<Asset>)
    requires Collected(kept, names, expected)
    ensures AllAcceptable(kept) && RawDistinct(kept) && expected == AssetsOf(kept)
  {}

  lemma Refused(items: seq<Item>, assetsOnly: bool, i: nat, names: set<string>, expected: seq<Asset>)
    requires i < |items| && items[i].Item? && forall x :: x in items[..i] ==> x.Item?
    requires Collected(Kept(items[..i], assetsOnly), names, expected) && Seen(items[i], assetsOnly)
    requires !Acceptable(items[i]) || items[i].name.value in names
    ensures !GoodListing(Items(items), assetsOnly)
  {
    NotGood(items, assetsOnly, i);
  }

  lemma KeptNext(items: seq<Item>, assetsOnly: bool, i: nat)
    requires i < |items| && items[i].Item? && forall x :: x in items[..i] ==> x.Item?
    ensures forall x :: x in items[..i + 1] ==> x.Item?
    ensures Kept(items[..i + 1], assetsOnly) ==
              if Seen(items[i], assetsOnly) then Kept(items[..i], assetsOnly) + [items[i]] else Kept(items[..i], assetsOnly)
  {
    assert items[..i + 1] == items[..i] + [items[i]];
    assert items[..i + 1][..i] == items[..i];
  }

  /** Going on only adds entries. */
  lemma {:induction false} KeptPrefix(items: seq<Item>, assetsOnly: bool, i: nat)
    requires i <= |items| && forall x :: x in items ==> x.Item?
    ensures Kept(items[..i], assetsOnly) <= Kept(items, assetsOnly)
    decreases |items| - i
  {
    hide Seen, Kept;
    if i == |items| {
      assert items[..i] == items;
    } else {
      assert items[i] in items;
      KeptNext(items, assetsOnly, i);
      KeptPrefix(items, assetsOnly, i + 1);
    }
  }

  /** A refused entry spoils the listing. */
  lemma NotGood(items: seq<Item>, assetsOnly: bool, i: nat)
    requires i < |items| && items[i].Item? && forall x :: x in items[..i] ==> x.Item?
    requires AllAcceptable(Kept(items[..i], assetsOnly))
    requires Seen(items[i], assetsOnly)
    requires Acceptable(items[i]) ==> exists x :: x in Kept(items[..i], assetsOnly) && x.name == items[i].name
    ensures !GoodListing(Items(items), assetsOnly)
  {
    if forall x :: x in items ==> x.Item? {
      var before := Kept(items[..i], assetsOnly);
      KeptNext(items, assetsOnly, i);
      KeptPrefix(items, assetsOnly, i + 1);
      var kept := Kept(items, assetsOnly);
      assert kept[|before|] == items[i] && forall j :: 0 <= j < |before| ==> kept[j] == before[j];
      assert kept[|before|] in kept;
      if Acceptable(items[i]) {
        var j :| 0 <= j < |before| && before[j].name == items[i].name;
        assert kept[j].name == kept[|before|].name;
      }
    }
  }

  /** The names the keys will be made of. */
  predicate FileNamesDistinct(kept: seq<Item>)
    requires AllAcceptable(kept)
  {
    forall i, j :: 0 <= i < j < |kept| ==> PathName(kept[i].name.value) != PathName(kept[j].name.value)
  }

  lemma SortKeepsNames(xs: seq<Asset>)
    requires Distinct(xs)
    ensures Distinct(Sort(xs))
  {
    SortSorts(xs);
    var ys := Sort(xs);
    forall i, j | 0 <= i < j < |ys| ensures ys[i].name != ys[j].name {
      if ys[i].name == ys[j].name {
        assert ys[i] in multiset(xs) && ys[j] in multiset(xs);
        DistinctNames(xs, ys[i], ys[j]);
        TwiceIn(ys, i, j);
        DistinctOnce(xs, ys[i]);
      }
    }
  }

  lemma TwiceIn(ys: seq<Asset>, i: nat, j: nat)
    requires i < j < |ys| && ys[i] == ys[j]
    ensures multiset(ys)[ys[i]] >= 2
  {
    assert ys == ys[..j] + ys[j..] && ys[j..] == [ys[j]] + ys[j + 1..];
    assert ys[i] in ys[..j];
    assert multiset(ys) == multiset(ys[..j]) + multiset{ys[j]} + multiset(ys[j + 1..]);
  }

  lemma {:induction false} DistinctOnce(xs: seq<Asset>, a: Asset)
    requires Distinct(xs)
    ensures multiset(xs)[a] <= 1
  {
    if xs != [] {
      DistinctOnce(xs[1..], a);
      assert xs == [xs[0]] + xs[1..];
      if xs[0] == a { assert a !in xs[1..]; }
    }
  }

  /** The order of GitHub's reply does not matter, so that runs of the same release agree on
      their asset list and with it on the text of `release.json`. */
  lemma OrderOfReplyFree(items: seq<Item>, other: seq<Item>, assetsOnly: bool)
    requires GoodListing(Items(items), assetsOnly) && GoodListing(Items(other), assetsOnly)
    requires multiset(items) == multiset(other) && FileNamesDistinct(Kept(items, assetsOnly))
    ensures AssetList(Items(items), assetsOnly) == AssetList(Items(other), assetsOnly)
  {
    var xs := AssetsOf(Kept(items, assetsOnly));
    var ys := AssetsOf(Kept(other, assetsOnly));
    KeptMultiset(items, other, assetsOnly);
    AssetsMultiset(Kept(items, assetsOnly), Kept(other, assetsOnly));
    SortSorts(xs);
    SortSorts(ys);
    SortKeepsNames(xs);
    AscendingUnique(Sort(xs), Sort(ys));
  }

  lemma {:induction false} KeptCount(items: seq<Item>, assetsOnly: bool, x: Item)
    requires forall y :: y in items ==> y.Item?
    requires x.Item?
    ensures multiset(Kept(items, assetsOnly))[x] == if Seen(x, assetsOnly) then multiset(items)[x] else 0
  {
    if items != [] {
      KeptCount(items[..|items| - 1], assetsOnly, x);
      assert items == items[..|items| - 1] + [items[|items| - 1]];
    }
  }

  lemma KeptMultiset(items: seq<Item>, other: seq<Item>, assetsOnly: bool)
    requires (forall y :: y in items ==> y.Item?) && multiset(items) == multiset(other)
    ensures forall y :: y in other ==> y.Item?
    ensures multiset(Kept(items, assetsOnly)) == multiset(Kept(other, assetsOnly))
  {
    forall y | y in other ensures y.Item? { assert y in multiset(items); }
    var a := multiset(Kept(items, assetsOnly));
    var b := multiset(Kept(other, assetsOnly));
    forall x ensures a[x] == b[x] {
      if x.Item? {
        KeptCount(items, assetsOnly, x);
        KeptCount(other, assetsOnly, x);
      } else {
        assert x !in Kept(items, assetsOnly) && x !in Kept(other, assetsOnly);
      }
    }
  }

  lemma Without<T>(ys: seq<T>, k: nat)
    requires k < |ys|
    ensures multiset(ys) == multiset(ys[..k] + ys[k + 1..]) + multiset{ys[k]}
    ensures multiset(ys[..k] + ys[k + 1..]) == multiset(ys) - multiset{ys[k]}
  {
    assert ys == ys[..k] + [ys[k]] + ys[k + 1..];
  }

  lemma AssetsWithout(ys: seq<Item>, k: nat)
    requires k < |ys| && AllAcceptable(ys)
    ensures AllAcceptable(ys[..k] + ys[k + 1..])
    ensures multiset(AssetsOf(ys)) == multiset(AssetsOf(ys[..k] + ys[k + 1..])) + multiset{AssetOf(ys[k])}
  {
    var all := AssetsOf(ys);
    assert AssetsOf(ys[..k] + ys[k + 1..]) == all[..k] + all[k + 1..];
    Without(all, k);
  }

  lemma {:induction false} AssetsMultiset(xs: seq<Item>, ys: seq<Item>)
    requires AllAcceptable(xs) && AllAcceptable(ys) && multiset(xs) == multiset(ys)
    ensures multiset(AssetsOf(xs)) == multiset(AssetsOf(ys))
  {
    hide Acceptable, AssetOf;
    if xs == [] {
      assert |multiset(ys)| == 0;
    } else {
      assert xs[0] in multiset(ys);
      var k :| 0 <= k < |ys| && ys[k] == xs[0];
      Without(xs, 0);
      Without(ys, k);
      assert xs[0] == ys[k];
      AssetsWithout(xs, 0);
      AssetsWithout(ys, k);
      AssetsMultiset(xs[..0] + xs[1..], ys[..k] + ys[k + 1..]);
    }
  }

  /** The list is fit for publishing exactly if the file names are distinct and leave the place
      of the metadata free. The script checks this of the names in the reply instead. */
  lemma ListFit(reply: Reply, assetsOnly: bool)
    requires GoodListing(reply, assetsOnly)
    ensures ValidAssets(AssetList(reply, assetsOnly)) <==>
              (FileNamesDistinct(Kept(reply.items, assetsOnly))
               && forall x :: x in Kept(reply.items, assetsOnly) ==> PathName(x.name.value) != METADATA)
  {
    var kept := Kept(reply.items, assetsOnly);
    var xs := AssetsOf(kept);
    SortSorts(xs);
    SortFit(xs, AssetList(reply, assetsOnly));
    NamesFit(kept);
  }

  lemma NamesFit(kept: seq<Item>)
    requires AllAcceptable(kept)
    ensures FileNamesDistinct(kept) <==> Distinct(AssetsOf(kept))
    ensures (forall x :: x in kept ==> PathName(x.name.value) != METADATA)
       <==> (forall i :: 0 <= i < |kept| ==> AssetsOf(kept)[i].name != METADATA)
  {
    hide PathName;
    var xs := AssetsOf(kept);
    assert forall i :: 0 <= i < |kept| ==> kept[i] in kept && xs[i].name == PathName(kept[i].name.value);
  }

  /** Fitness does not depend on the order. */
  lemma SortFit(xs: seq<Asset>, ys: seq<Asset>)
    requires multiset(xs) == multiset(ys)
    ensures Distinct(xs) <==> Distinct(ys)
    ensures (forall i :: 0 <= i < |xs| ==> xs[i].name != METADATA) <==> (forall i :: 0 <= i < |ys| ==> ys[i].name != METADATA)
    ensures |xs| == |ys|
  {
    SameLength(xs, ys);
    SameMembers(xs, ys);
    if Distinct(xs) { DistinctBack(ys, xs); }
    if Distinct(ys) { DistinctBack(xs, ys); }
    assert forall i :: 0 <= i < |xs| ==> xs[i] in ys;
    assert forall i :: 0 <= i < |ys| ==> ys[i] in xs;
  }

  lemma DistinctBack(xs: seq<Asset>, ys: seq<Asset>)
    requires multiset(xs) == multiset(ys) && Distinct(ys)
    ensures Distinct(xs)
  {
    SameMembers(xs, ys);
    forall i, j | 0 <= i < j < |xs| ensures xs[i].name != xs[j].name {
      if xs[i].name == xs[j].name {
        DistinctNames(ys, xs[i], xs[j]);
        TwiceIn(xs, i, j);
        DistinctOnce(ys, xs[i]);
      }
    }
  }

  /** Names without a separator, which is what GitHub gives, are their own file names. */
  lemma BareListing(reply: Reply, assetsOnly: bool)
    requires GoodListing(reply, assetsOnly)
    requires forall x :: x in Kept(reply.items, assetsOnly) ==> Bare(x.name.value)
    ensures ValidAssets(AssetList(reply, assetsOnly))
  {
    var kept := Kept(reply.items, assetsOnly);
    forall x | x in kept ensures PathName(x.name.value) == x.name.value { BareName(x.name.value); }
    ListFit(reply, assetsOnly);
  }

  lemma {:induction false} TwoComponents(d: string, n: string)
    requires '/' !in d && '/' !in n
    ensures Components(d + "/" + n) == [d, n]
  {
    var s := d + "/" + n;
    if d == "" {
      assert s[1..] == n;
      OneComponent(n);
    } else {
      assert s[1..] == d[1..] + "/" + n;
      TwoComponents(d[1..], n);
      assert [d[0]] + d[1..] == d;
    }
  }

  /** A name with a separator passes the check and takes the key of the metadata. */
  lemma SlashedName(version: string, directory: string, digest: string)
    requires IsDigest(digest) && '/' !in directory
    ensures var item := Item(Some(directory + "/" + METADATA), Some(1), Some("uploaded"), Some(digest));
            && GoodListing(Items([item]), false)
            && AssetKey(version, AssetOf(item).name) == MetadataKey(version)
  {
    var item := Item(Some(directory + "/" + METADATA), Some(1), Some("uploaded"), Some(digest));
    assert Kept([item], false) == [item] by {
      assert [item][..0] == [];
      assert Kept([], false) == [];
    }
    TwoComponents(directory, METADATA);
    assert '/' in item.name.value && '/' !in METADATA;
  }
}
