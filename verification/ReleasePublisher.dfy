/** One publisher run as the script executes it: the bucket and the download directory are
    objects it updates, the workers finish in any order, and no command fails on its own. */
module ReleasePublisher {
  import opened Text
  import opened VersionGrammar
  import opened ReleaseKeys
  import opened ReleaseStore
  import opened ReleaseUploads

  /** What a run reports for an asset. */
  datatype Record = Record(key: string, name: string, sha256: string, size: nat)

  datatype Failure =
    | NotOnGitHub
    | LocalMismatch(name: string)
    | RemoteMismatch(key: string)
    | RemoteMissing(key: string)
    | InstallersMissing

  function RecordOf(version: string, a: Asset): Record {
    Record(AssetKey(version, a.name), a.name, a.sha256, a.size)
  }

  function Records(version: string, assets: seq<Asset>): (rs: seq<Record>)
    ensures |rs| == |assets| && forall i :: 0 <= i < |rs| ==> rs[i] == RecordOf(version, assets[i])
  {
    seq(|assets|, i requires 0 <= i < |assets| => RecordOf(version, assets[i]))
  }

  /** The order in which a pool of workers finishes its assets. */
  type Schedule = seq<Asset> -> seq<Asset>

  ghost predicate Permutes(schedule: Schedule) {
    forall x :: multiset(schedule(x)) == multiset(x)
  }

  /** The bucket, with the two commands the script issues. */
  class Bucket {
    var objects: Store

    constructor ()
      ensures objects == map[]
    {
      objects := map[];
    }

    method Upload(key: string, bytes: Bytes, sha256: string, overwrite: bool)
      modifies this
      ensures objects == if overwrite then Put(old(objects), key, bytes, sha256)
                         else PutNew(old(objects), key, bytes, sha256)
    {
      if overwrite || key !in objects {
        objects := objects[key := Object(bytes, sha256)];
      }
    }

    /** `verify_remote`; `None` when all is well. */
    method Verify(key: string, size: nat, sha256: string) returns (r: Option<Failure>)
      ensures r.None? <==> Holds(objects, key, size, sha256)
      ensures r == Some(RemoteMissing(key)) <==> key !in objects
      ensures r.Some? ==> r.value == RemoteMissing(key) || r.value == RemoteMismatch(key)
    {
      if key !in objects { return Some(RemoteMissing(key)); }
      var found := objects[key];
      if |found.bytes| != size || found.sha256 != sha256 { return Some(RemoteMismatch(key)); }
      return None;
    }
  }

  /** The temporary directory of a run. */
  class Directory {
    var files: Files

    constructor ()
      ensures files == map[]
    {
      files := map[];
    }

    /** `download_assets`: fetches all of them, or fails because one did not arrive. */
    method Download(github: Files, assets: seq<Asset>) returns (ok: bool)
      modifies this
      ensures ok <==> forall a :: a in assets ==> a.name in github
      ensures forall n :: n in files ==> n in old(files) || (exists a :: a in assets && a.name == n && n in github)
      ensures forall n :: n in old(files) ==> n in files
      ensures ok ==> forall a :: a in assets ==> a.name in files
      ensures Copies(old(files), github) ==> Copies(files, github)
    {
      ok := true;
      for i := 0 to |assets|
        invariant ok <==> forall a :: a in assets[..i] ==> a.name in github
        invariant forall n :: n in files ==> n in old(files) || (exists a :: a in assets && a.name == n && n in github)
        invariant forall n :: n in old(files) ==> n in files
        invariant ok ==> forall a :: a in assets[..i] ==> a.name in files
        invariant Copies(old(files), github) ==> Copies(files, github)
      {
        var a := assets[i];
        assert assets[..i + 1] == assets[..i] + [a];
        if a.name in github {
          files := files[a.name := github[a.name]];
        } else {
          ok := false;
        }
      }
      assert assets[..|assets|] == assets;
    }
  }

  /** Every local file has the contents of the asset it was downloaded from. */
  ghost predicate Copies(files: Files, github: Files) {
    forall n :: n in files ==> n in github && files[n] == github[n]
  }

  const CHUNK := 1024 * 1024

  /** `stream_digest`: reading in chunks feeds the digest the whole file. */
  method StreamDigest(env: Env, source: Bytes) returns (size: nat, sha256: string)
    ensures size == |source| && sha256 == env.sha(source)
  {
    var fed: Bytes := [];
    var rest := source;
    size := 0;
    while rest != []
      invariant fed + rest == source && size == |fed|
      decreases |rest|
    {
      var n := if |rest| < CHUNK then |rest| else CHUNK;
      var chunk := rest[..n];
      fed, size, rest := fed + chunk, size + |chunk|, rest[n..];
    }
    sha256 := env.sha(fed);
    assert fed == source;
  }

  /** `validate_asset`. The file must have been downloaded. */
  method ValidateAsset(env: Env, directory: Directory, asset: Asset) returns (ok: bool)
    requires asset.name in directory.files
    ensures ok <==> Sound(env, directory.files, asset)
  {
    var size, sha256 := StreamDigest(env, directory.files[asset.name]);
    ok := size == asset.size && sha256 == asset.sha256;
  }

  method PublishAsset(env: Env, bucket: Bucket, directory: Directory, version: string, asset: Asset, verify: bool)
    returns (r: Result<Record, Failure>)
    requires asset.name in directory.files
    modifies bucket
    ensures bucket.objects == UploadOne(env, old(bucket.objects), version, asset, directory.files)
    ensures r.Ok? <==> Sound(env, directory.files, asset) && (verify ==> AssetHolds(bucket.objects, version, asset))
    ensures r.Ok? ==> r.value == RecordOf(version, asset)
  {
    var ok := ValidateAsset(env, directory, asset);
    if !ok { return Err(LocalMismatch(asset.name)); }
    var key := AssetKey(version, asset.name);
    bucket.Upload(key, directory.files[asset.name], asset.sha256, false);
    if verify {
      var problem := bucket.Verify(key, asset.size, asset.sha256);
      if problem.Some? { return Err(problem.value); }
    }
    return Ok(Record(key, asset.name, asset.sha256, asset.size));
  }

  /** The dictionary has the record of each of these assets under its name. */
  ghost predicate Recorded(published: map<string, Record>, version: string, done: seq<Asset>) {
    forall a :: a in done ==> a.name in published && published[a.name] == RecordOf(version, a)
  }

  lemma RecordedMore(published: map<string, Record>, version: string, done: seq<Asset>, a: Asset)
    requires Recorded(published, version, done)
    requires forall b :: b in done && b.name == a.name ==> b == a
    ensures Recorded(published[a.name := RecordOf(version, a)], version, done + [a])
  {}

  method Collect(version: string, assets: seq<Asset>, published: map<string, Record>) returns (records: seq<Record>)
    requires Recorded(published, version, assets)
    ensures records == Records(version, assets)
  {
    records := [];
    for i := 0 to |assets|
      invariant |records| == i && forall j :: 0 <= j < i ==> records[j] == RecordOf(version, assets[j])
    {
      records := records + [published[assets[i].name]];
    }
  }

  ghost predicate AllSound(env: Env, files: Files, assets: seq<Asset>) {
    forall a :: a in assets ==> Sound(env, files, a)
  }

  ghost predicate AllHold(store: Store, version: string, assets: seq<Asset>) {
    forall a :: a in assets ==> AssetHolds(store, version, a)
  }

  /** What the workers find after their own uploads is what the bucket says after all uploads. */
  lemma WorkersAgree(env: Env, store: Store, version: string, order: seq<Asset>, files: Files, i: nat)
    requires i < |order| && Sound(env, files, order[i])
    ensures AssetHolds(UploadAll(env, store, version, order[..i + 1], files), version, order[i])
        <==> AssetHolds(UploadAll(env, store, version, order, files), version, order[i])
  {
    HoldsAfter(env, store, version, order[..i + 1], files, order[i]);
    HoldsAfter(env, store, version, order, files, order[i]);
  }

  /** `publish_assets`: every worker runs to its end even when another one has failed, and the
      records come in asset order, whatever the order of completion. */
  method PublishAssets(env: Env, bucket: Bucket, directory: Directory, version: string, assets: seq<Asset>,
                       schedule: Schedule, verify: bool)
    returns (r: Result<seq<Record>, Failure>)
    requires Permutes(schedule) && Distinct(assets)
    requires forall a :: a in assets ==> a.name in directory.files
    modifies bucket
    ensures bucket.objects == UploadAll(env, old(bucket.objects), version, assets, directory.files)
    ensures r.Ok? <==> AllSound(env, directory.files, assets) && (verify ==> AllHold(bucket.objects, version, assets))
    ensures r.Ok? ==> r.value == Records(version, assets)
  {
    if assets == [] { return Ok([]); }
    var order := schedule(assets);
    SameMembers(order, assets);
    ghost var before := bucket.objects;
    ghost var files := directory.files;
    ghost var final := UploadAll(env, before, version, order, files);
    OrderFree(env, before, version, order, assets, files);
    var published: map<string, Record> := map[];
    var failure: Option<Failure> := None;
    for i := 0 to |order|
      invariant bucket.objects == UploadAll(env, before, version, order[..i], files)
      invariant failure.None? ==> Recorded(published, version, order[..i])
      invariant failure.None? <==> AllSound(env, files, order[..i]) && (verify ==> AllHold(final, version, order[..i]))
    {
      assert order[..i + 1] == order[..i] + [order[i]];
      assert order[..i + 1][..i] == order[..i];
      var outcome := PublishAsset(env, bucket, directory, version, order[i], verify);
      if Sound(env, files, order[i]) { WorkersAgree(env, before, version, order, files, i); }
      match outcome
      case Ok(record) =>
        forall b | b in order[..i] && b.name == order[i].name ensures b == order[i] {
          DistinctNames(assets, b, order[i]);
        }
        if failure.None? { RecordedMore(published, version, order[..i], order[i]); }
        published := published[order[i].name := record];
      case Err(error) =>
        if failure.None? { failure := Some(error); }
    }
    assert order[..|order|] == order;
    if failure.Some? { return Err(failure.value); }
    var records := Collect(version, assets, published);
    return Ok(records);
  }

  /** An asset that is there, if at all, in the listed form. */
  predicate Compatible(store: Store, version: string, asset: Asset) {
    AssetKey(version, asset.name) in store ==> AssetHolds(store, version, asset)
  }

  ghost predicate AllCompatible(store: Store, version: string, assets: seq<Asset>) {
    forall a :: a in assets ==> Compatible(store, version, a)
  }

  /** The dictionary has exactly those of the assets that the bucket already has. */
  ghost predicate FoundIn(published: map<string, Record>, store: Store, version: string, done: seq<Asset>) {
    && (forall n :: n in published ==> AssetKey(version, n) in store)
    && forall a :: a in done && AssetKey(version, a.name) in store ==>
         a.name in published && published[a.name] == RecordOf(version, a)
  }

  lemma FoundMore(published: map<string, Record>, store: Store, version: string, done: seq<Asset>, a: Asset)
    requires FoundIn(published, store, version, done)
    requires forall b :: b in done && b.name == a.name ==> b == a
    ensures AssetKey(version, a.name) in store ==>
              FoundIn(published[a.name := RecordOf(version, a)], store, version, done + [a])
    ensures AssetKey(version, a.name) !in store ==> FoundIn(published, store, version, done + [a])
  {}

  /** `find_published_assets`: a missing object is no error, a different one is. */
  method FindPublishedAssets(bucket: Bucket, version: string, assets: seq<Asset>, schedule: Schedule)
    returns (r: Result<map<string, Record>, Failure>)
    requires Permutes(schedule) && Distinct(assets)
    ensures r.Ok? <==> AllCompatible(bucket.objects, version, assets)
    ensures r.Ok? ==> FoundIn(r.value, bucket.objects, version, assets)
  {
    var order := schedule(assets);
    SameMembers(order, assets);
    var published: map<string, Record> := map[];
    for i := 0 to |order|
      invariant AllCompatible(bucket.objects, version, order[..i])
      invariant FoundIn(published, bucket.objects, version, order[..i])
    {
      var a := order[i];
      assert order[..i + 1] == order[..i] + [a];
      forall b | b in order[..i] && b.name == a.name ensures b == a { DistinctNames(assets, b, a); }
      FoundMore(published, bucket.objects, version, order[..i], a);
      var problem := bucket.Verify(AssetKey(version, a.name), a.size, a.sha256);
      if problem.Some? && problem.value.RemoteMismatch? {
        assert a in order && !Compatible(bucket.objects, version, a);
        return Err(problem.value);
      }
      if problem.None? { published := published[a.name := RecordOf(version, a)]; }
    }
    assert order[..|order|] == order;
    return Ok(published);
  }
}
