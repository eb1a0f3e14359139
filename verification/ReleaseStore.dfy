/** The release bucket: what an upload, a conditional upload and a header check do to it. */
module ReleaseStore {
  import opened Text
  import opened VersionGrammar
  import opened ReleaseKeys

  type Bytes = seq<bv8>

  /** An object with the `sha256` metadata it was uploaded with. Its size is the store's own count. */
  datatype Object = Object(bytes: Bytes, sha256: string)

  type Store = map<string, Object>

  /** A release asset as GitHub lists it, under the name its key is made of. */
  datatype Asset = Asset(name: string, size: nat, sha256: string)

  /** What the model leaves abstract: SHA-256 as a hexadecimal digest, and the text of
      `release.json` as a function of the version and the listed assets. */
  datatype Env = Env(sha: Bytes -> string, render: (string, seq<Asset>) -> Bytes)

  /** The digest tells contents apart. */
  ghost predicate CollisionFree(env: Env) {
    forall x, y :: env.sha(x) == env.sha(y) ==> x == y
  }

  /** An upload without `--no-overwrite`. */
  function Put(store: Store, key: string, bytes: Bytes, sha256: string): Store {
    store[key := Object(bytes, sha256)]
  }

  /** An upload with `--no-overwrite`: an existing object stays, silently. */
  function PutNew(store: Store, key: string, bytes: Bytes, sha256: string): Store {
    if key in store then store else Put(store, key, bytes, sha256)
  }

  /** `verify_remote`: only the size and the digest header are compared. */
  predicate Holds(store: Store, key: string, size: nat, sha256: string) {
    key in store && |store[key].bytes| == size && store[key].sha256 == sha256
  }

  /** `validate_asset` on the bytes of the local file. */
  predicate Validates(env: Env, asset: Asset, bytes: Bytes) {
    |bytes| == asset.size && env.sha(bytes) == asset.sha256
  }

  /** Every header tells the truth about its object. */
  ghost predicate Truthful(env: Env, store: Store) {
    forall k :: k in store ==> store[k].sha256 == env.sha(store[k].bytes)
  }

  /** The header comparison is as good as comparing contents. */
  lemma HeaderSuffices(env: Env, store: Store, key: string, bytes: Bytes)
    requires CollisionFree(env) && Truthful(env, store)
    ensures Holds(store, key, |bytes|, env.sha(bytes)) <==> key in store && store[key].bytes == bytes
  {}

  predicate Distinct(assets: seq<Asset>) {
    forall i, j :: 0 <= i < j < |assets| ==> assets[i].name != assets[j].name
  }

  lemma DistinctNames(assets: seq<Asset>, a: Asset, b: Asset)
    requires Distinct(assets) && a in assets && b in assets && a.name == b.name
    ensures a == b
  {}

  lemma SameMembers(xs: seq<Asset>, ys: seq<Asset>)
    requires multiset(xs) == multiset(ys)
    ensures forall a :: a in xs <==> a in ys
  {
    forall a ensures a in xs <==> a in ys {
      assert a in xs <==> a in multiset(xs);
      assert a in ys <==> a in multiset(ys);
    }
  }

  /** Names of listed assets: each once, and none in the place of the metadata. */
  ghost predicate ValidAssets(assets: seq<Asset>) {
    && assets != [] && Distinct(assets)
    && forall i :: 0 <= i < |assets| ==> assets[i].name != METADATA
  }

  /** Versioned objects are only ever added. */
  ghost predicate Grows(before: Store, after: Store) {
    forall k :: k in before && Versioned(k) ==> k in after && after[k] == before[k]
  }

  /** All assets of a release are there with the listed digest, and so is its metadata text. */
  ghost predicate Complete(env: Env, store: Store, version: string, assets: seq<Asset>) {
    && TagVersion(version) && assets != []
    && (forall i :: 0 <= i < |assets| ==>
          var k := AssetKey(version, assets[i].name);
          && Holds(store, k, assets[i].size, assets[i].sha256)
          && env.sha(store[k].bytes) == assets[i].sha256)
    && MetadataKey(version) in store
    && store[MetadataKey(version)].bytes == env.render(version, assets)
  }

  /** These bytes are the stored metadata of some completely published version. */
  ghost predicate Backed(env: Env, store: Store, bytes: Bytes) {
    exists version, assets :: Complete(env, store, version, assets) && bytes == env.render(version, assets)
  }

  /** These bytes are the stored installer asset of some version. */
  ghost predicate AliasBacked(store: Store, name: string, bytes: Bytes) {
    exists version :: TagVersion(version) && AssetKey(version, name) in store
                   && store[AssetKey(version, name)].bytes == bytes
  }

  /** Listed names may clash in their last component, and one may even name the metadata. In what is
      published completely, assets of one name are the same, and an asset of the metadata's name is
      the metadata text itself. */
  ghost predicate ClashesAgree(env: Env, version: string, assets: seq<Asset>) {
    var m := env.render(version, assets);
    && (forall i, j :: 0 <= i < j < |assets| && assets[i].name == assets[j].name ==> assets[i] == assets[j])
    && (forall i :: 0 <= i < |assets| && assets[i].name == METADATA ==>
          assets[i].size == |m| && assets[i].sha256 == env.sha(m))
  }

  lemma CompleteAgrees(env: Env, store: Store, version: string, assets: seq<Asset>)
    requires Complete(env, store, version, assets)
    ensures ClashesAgree(env, version, assets)
  {
    forall i, j | 0 <= i < j < |assets| && assets[i].name == assets[j].name ensures assets[i] == assets[j] {
      var k := AssetKey(version, assets[i].name);
      assert store[k].sha256 == assets[i].sha256 == assets[j].sha256;
    }
  }

  /** The text of `release.json` tells the version, and the names and digests in their order. */
  ghost predicate Legible(env: Env) {
    forall v, xs: seq<Asset>, w, ys: seq<Asset> :: env.render(v, xs) == env.render(w, ys) ==>
      && v == w && |xs| == |ys|
      && forall i :: 0 <= i < |xs| ==> xs[i].name == ys[i].name && xs[i].sha256 == ys[i].sha256
  }

  lemma HoldsGrows(before: Store, after: Store, version: string, name: string, size: nat, sha256: string)
    requires Grows(before, after) && Holds(before, AssetKey(version, name), size, sha256)
    ensures Holds(after, AssetKey(version, name), size, sha256)
    ensures after[AssetKey(version, name)] == before[AssetKey(version, name)]
  {
    AssetKeyVersioned(version, name);
  }

  lemma CompleteGrows(env: Env, before: Store, after: Store, version: string, assets: seq<Asset>)
    requires Grows(before, after) && Complete(env, before, version, assets)
    ensures Complete(env, after, version, assets)
  {
    AssetKeyVersioned(version, METADATA);
    forall i | 0 <= i < |assets|
      ensures var k := AssetKey(version, assets[i].name);
              Holds(after, k, assets[i].size, assets[i].sha256) && after[k] == before[k]
    {
      HoldsGrows(before, after, version, assets[i].name, assets[i].size, assets[i].sha256);
    }
  }

  lemma BackedGrows(env: Env, before: Store, after: Store, bytes: Bytes)
    requires Grows(before, after) && Backed(env, before, bytes)
    ensures Backed(env, after, bytes)
  {
    var version, assets :| Complete(env, before, version, assets) && bytes == env.render(version, assets);
    CompleteGrows(env, before, after, version, assets);
  }

  lemma AliasBackedGrows(before: Store, after: Store, name: string, bytes: Bytes)
    requires Grows(before, after) && AliasBacked(before, name, bytes)
    ensures AliasBacked(after, name, bytes)
  {
    var version :| TagVersion(version) && AssetKey(version, name) in before
                && before[AssetKey(version, name)].bytes == bytes;
    AssetKeyVersioned(version, name);
  }

  /** The asset with a name; names of a valid listing are distinct, so there is at most one. */
  function Named(assets: seq<Asset>, name: string): (r: Option<Asset>)
    ensures r.Some? ==> r.value in assets && r.value.name == name
    ensures r.None? ==> forall a :: a in assets ==> a.name != name
  {
    if assets == [] then None
    else if assets[0].name == name then Some(assets[0])
    else Named(assets[1..], name)
  }

  /** A stable release must list both installers. */
  predicate HasInstallers(assets: seq<Asset>) {
    forall i :: 0 <= i < |INSTALLERS| ==> Named(assets, INSTALLERS[i]).Some?
  }
}
