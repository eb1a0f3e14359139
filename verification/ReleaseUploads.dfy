/** What the uploads of one run leave in the bucket, whatever order its workers finish in. */
module ReleaseUploads {
  import opened Text
  import opened ReleaseKeys
  import opened ReleaseStore

  type Files = map<string, Bytes>

  /** A local file of this name is there and is what GitHub lists. */
  predicate Sound(env: Env, files: Files, asset: Asset) {
    asset.name in files && Validates(env, asset, files[asset.name])
  }

  /** `publish_asset` on the store: an asset that fails its validation is not uploaded. */
  function UploadOne(env: Env, store: Store, version: string, asset: Asset, files: Files): Store {
    if Sound(env, files, asset)
    then PutNew(store, AssetKey(version, asset.name), files[asset.name], asset.sha256)
    else store
  }

  /** The uploads of `order`, one after the other. */
  function UploadAll(env: Env, store: Store, version: string, order: seq<Asset>, files: Files): Store {
    if order == [] then store
    else
      var last := |order| - 1;
      UploadOne(env, UploadAll(env, store, version, order[..last], files), version, order[last], files)
  }

  /** One of the assets has this key and a sound file. */
  ghost predicate Uploadable(env: Env, version: string, assets: seq<Asset>, files: Files, key: string) {
    exists a :: a in assets && Sound(env, files, a) && key == AssetKey(version, a.name)
  }

  lemma NameOfKey(version: string, name: string)
    ensures AssetKey(version, name)[|VersionPrefix(version)|..] == name
  {}

  /** The object that an upload makes is a function of its key. */
  function ObjectAt(env: Env, version: string, files: Files, key: string): Object
    requires VersionPrefix(version) <= key && key[|VersionPrefix(version)|..] in files
  {
    var bytes := files[key[|VersionPrefix(version)|..]];
    Object(bytes, env.sha(bytes))
  }

  /** Key by key: what was there stays, every uploadable key is there with its own object, nothing else. */
  lemma {:induction false} UploadAllAt(env: Env, store: Store, version: string, order: seq<Asset>, files: Files,
                                       key: string)
    ensures var after := UploadAll(env, store, version, order, files);
            && (key in after <==> key in store || Uploadable(env, version, order, files, key))
            && (key in store ==> after[key] == store[key])
            && (key in after && key !in store ==>
                  && VersionPrefix(version) <= key && key[|VersionPrefix(version)|..] in files
                  && after[key] == ObjectAt(env, version, files, key))
  {
    if order != [] {
      var last := order[|order| - 1];
      var front := order[..|order| - 1];
      UploadAllAt(env, store, version, front, files, key);
      AssetKeyVersioned(version, last.name);
      NameOfKey(version, last.name);
      assert order == front + [last];
      assert forall a :: a in order <==> a in front || a == last;
    }
  }

  /** The workers' order does not matter. */
  lemma {:induction false} OrderFree(env: Env, store: Store, version: string, order: seq<Asset>,
                                     assets: seq<Asset>, files: Files)
    requires multiset(order) == multiset(assets)
    ensures UploadAll(env, store, version, order, files) == UploadAll(env, store, version, assets, files)
  {
    var x := UploadAll(env, store, version, order, files);
    var y := UploadAll(env, store, version, assets, files);
    SameMembers(order, assets);
    forall k ensures (k in x <==> k in y) && (k in x ==> x[k] == y[k]) {
      UploadAllAt(env, store, version, order, files, k);
      UploadAllAt(env, store, version, assets, files, k);
    }
  }

  predicate AssetHolds(store: Store, version: string, asset: Asset) {
    Holds(store, AssetKey(version, asset.name), asset.size, asset.sha256)
  }

  /** With a sound file, the asset holds after the uploads exactly if its key was free or held already. */
  lemma HoldsAfter(env: Env, store: Store, version: string, order: seq<Asset>, files: Files, asset: Asset)
    requires asset in order && Sound(env, files, asset)
    ensures AssetHolds(UploadAll(env, store, version, order, files), version, asset)
        <==> (AssetKey(version, asset.name) in store ==> AssetHolds(store, version, asset))
  {
    UploadAllAt(env, store, version, order, files, AssetKey(version, asset.name));
    NameOfKey(version, asset.name);
    assert Uploadable(env, version, order, files, AssetKey(version, asset.name));
  }
}
