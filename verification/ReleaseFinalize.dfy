/** The two stages of the publisher, as methods over the bucket, and what they amount to. */
module ReleaseFinalize {
  import opened Text
  import opened VersionGrammar
  import opened ReleaseKeys
  import opened ReleaseStore
  import opened ReleaseUploads
  import opened ReleasePublisher

  /** The assets the bucket does not have yet. */
  function Absent(store: Store, version: string, assets: seq<Asset>): (xs: seq<Asset>)
    ensures forall a :: a in xs <==> a in assets && AssetKey(version, a.name) !in store
    ensures Distinct(assets) ==> Distinct(xs)
  {
    if assets == [] then []
    else
      var rest := Absent(store, version, assets[1..]);
      if AssetKey(version, assets[0].name) in store then rest else [assets[0]] + rest
  }

  /** Every listed installer is on GitHub with the listed contents, and both are listed. */
  predicate InstallersSound(env: Env, github: Files, assets: seq<Asset>) {
    && HasInstallers(assets)
    && forall i :: 0 <= i < |INSTALLERS| ==> Sound(env, github, Named(assets, INSTALLERS[i]).value)
  }

  /** When a `finalize` run succeeds, in terms of what it starts from. */
  ghost predicate CanFinalize(env: Env, store: Store, github: Files, version: string, assets: seq<Asset>,
                              prerelease: bool) {
    var m := env.render(version, assets);
    && AllCompatible(store, version, assets)
    && AllSound(env, github, Absent(store, version, assets))
    && (MetadataKey(version) in store ==> Holds(store, MetadataKey(version), |m|, env.sha(m)))
    && (!prerelease ==> InstallersSound(env, github, assets))
  }

  /** The versioned objects a successful run leaves. */
  function Published(env: Env, store: Store, github: Files, version: string, assets: seq<Asset>): Store {
    var m := env.render(version, assets);
    PutNew(UploadAll(env, store, version, Absent(store, version, assets), github),
           MetadataKey(version), m, env.sha(m))
  }

  /** The first `n` installer aliases are refreshed. */
  function Aliased(store: Store, github: Files, assets: seq<Asset>, n: nat): Store
    requires n <= |INSTALLERS| && HasInstallers(assets)
    requires forall i :: 0 <= i < n ==> INSTALLERS[i] in github
  {
    if n == 0 then store
    else
      Put(Aliased(store, github, assets, n - 1), AliasKey(INSTALLERS[n - 1]), github[INSTALLERS[n - 1]],
          Named(assets, INSTALLERS[n - 1]).value.sha256)
  }

  function Moved(store: Store, channels: seq<string>, bytes: Bytes, sha256: string): Store {
    if channels == [] then store
    else
      var last := |channels| - 1;
      Put(Moved(store, channels[..last], bytes, sha256), ChannelKey(channels[last]), bytes, sha256)
  }

  /** The bucket after a successful run. */
  function Finalized(env: Env, store: Store, github: Files, version: string, assets: seq<Asset>,
                     makeLatest: bool, prerelease: bool): Store
    requires !prerelease ==> InstallersSound(env, github, assets)
  {
    var m := env.render(version, assets);
    var published := Published(env, store, github, version, assets);
    var aliased := if prerelease then published else
                   (InstallersOnGithub(env, github, assets);
                    Aliased(published, github, assets, |INSTALLERS|));
    Moved(aliased, Channels(makeLatest, prerelease), m, env.sha(m))
  }

  /** The files a run asks GitHub for: what is missing in the bucket, and the installers of a stable release. */
  ghost predicate Downloadable(store: Store, github: Files, version: string, assets: seq<Asset>, prerelease: bool) {
    forall a :: a in assets && (AssetKey(version, a.name) !in store || (!prerelease && a.name in INSTALLERS)) ==>
      a.name in github
  }

  predicate FirstInstallerSound(env: Env, github: Files, assets: seq<Asset>) {
    HasInstallers(assets) && Sound(env, github, Named(assets, INSTALLERS[0]).value)
  }

  /** What a run that fails leaves: nothing is uploaded before everything is found and downloaded; then the
      sound assets are; the metadata follows if all of them are sound; and one alias is refreshed if only
      the other installer is not sound. */
  ghost function Failed(env: Env, store: Store, github: Files, version: string, assets: seq<Asset>, prerelease: bool)
    : Store
  {
    var missing := Absent(store, version, assets);
    var m := env.render(version, assets);
    if !AllCompatible(store, version, assets) || !Downloadable(store, github, version, assets, prerelease) then store
    else if !AllSound(env, github, missing)
            || (MetadataKey(version) in store && !Holds(store, MetadataKey(version), |m|, env.sha(m)))
    then UploadAll(env, store, version, missing, github)
    else
      var published := Published(env, store, github, version, assets);
      if FirstInstallerSound(env, github, assets) then Aliased(published, github, assets, 1) else published
  }

  lemma InstallersOnGithub(env: Env, github: Files, assets: seq<Asset>)
    requires InstallersSound(env, github, assets)
    ensures forall i :: 0 <= i < |INSTALLERS| ==> INSTALLERS[i] in github
  {}

  /** Uploading copies of what GitHub has is uploading what GitHub has. */
  lemma {:induction false} CopiesUpload(env: Env, store: Store, version: string, order: seq<Asset>,
                                        files: Files, github: Files)
    requires Copies(files, github) && forall a :: a in order ==> a.name in files
    ensures UploadAll(env, store, version, order, files) == UploadAll(env, store, version, order, github)
    ensures AllSound(env, files, order) <==> AllSound(env, github, order)
  {
    if order != [] {
      var last := |order| - 1;
      CopiesUpload(env, store, version, order[..last], files, github);
      assert order[last] in order;
      assert forall a :: a in order <==> a in order[..last] || a == order[last];
    }
  }

  /** `publish_installers`. Its files must have been downloaded. */
  method PublishInstallers(env: Env, bucket: Bucket, directory: Directory, assets: seq<Asset>)
    returns (failure: Option<Failure>)
    requires forall i :: 0 <= i < |INSTALLERS| && Named(assets, INSTALLERS[i]).Some? ==> INSTALLERS[i] in directory.files
    modifies bucket
    ensures failure.None? <==> InstallersSound(env, directory.files, assets)
    ensures failure.None? ==> bucket.objects == Aliased(old(bucket.objects), directory.files, assets, |INSTALLERS|)
    ensures failure.Some? ==>
              bucket.objects == if FirstInstallerSound(env, directory.files, assets)
                                then Aliased(old(bucket.objects), directory.files, assets, 1) else old(bucket.objects)
    ensures forall k :: k !in [AliasKey(INSTALLERS[0]), AliasKey(INSTALLERS[1])] ==>
              (k in bucket.objects <==> k in old(bucket.objects))
              && (k in bucket.objects ==> bucket.objects[k] == old(bucket.objects)[k])
  {
    if !HasInstallers(assets) { return Some(InstallersMissing); }
    for i := 0 to |INSTALLERS|
      invariant bucket.objects == Aliased(old(bucket.objects), directory.files, assets, i)
      invariant forall j :: 0 <= j < i ==> Sound(env, directory.files, Named(assets, INSTALLERS[j]).value)
      invariant forall k :: k !in [AliasKey(INSTALLERS[0]), AliasKey(INSTALLERS[1])] ==>
              (k in bucket.objects <==> k in old(bucket.objects))
              && (k in bucket.objects ==> bucket.objects[k] == old(bucket.objects)[k])
    {
      var name := INSTALLERS[i];
      var asset := Named(assets, name).value;
      var ok := ValidateAsset(env, directory, asset);
      if !ok { return Some(LocalMismatch(name)); }
      bucket.Upload(AliasKey(name), directory.files[name], asset.sha256, true);
      var problem := bucket.Verify(AliasKey(name), asset.size, asset.sha256);
      if problem.Some? { return problem; }
    }
    return None;
  }

  /** The assets of a run that are installers the bucket already has. */
  function KnownInstallers(published: map<string, Record>, assets: seq<Asset>): (xs: seq<Asset>)
    ensures forall a :: a in xs <==> a in assets && a.name in INSTALLERS && a.name in published
  {
    if assets == [] then []
    else
      var rest := KnownInstallers(published, assets[1..]);
      if assets[0].name in INSTALLERS && assets[0].name in published then [assets[0]] + rest else rest
  }

  method Remaining(assets: seq<Asset>, published: map<string, Record>, ghost store: Store, ghost version: string)
    returns (remaining: seq<Asset>)
    requires FoundIn(published, store, version, assets)
    ensures remaining == Absent(store, version, assets)
  {
    remaining := [];
    for i := |assets| downto 0
      invariant remaining == Absent(store, version, assets[i..])
    {
      assert assets[i..][0] == assets[i] && assets[i..][1..] == assets[i + 1..];
      if assets[i].name !in published { remaining := [assets[i]] + remaining; }
    }
  }

  /** The uploaded records under their names. */
  method Index(version: string, ghost assets: seq<Asset>, records: seq<Record>) returns (byName: map<string, Record>)
    requires Distinct(assets) && records == Records(version, assets)
    ensures Recorded(byName, version, assets)
  {
    byName := map[];
    for i := 0 to |records|
      invariant Recorded(byName, version, assets[..i])
    {
      assert assets[..i + 1] == assets[..i] + [assets[i]];
      assert forall b :: b in assets[..i] ==> b.name != assets[i].name;
      RecordedMore(byName, version, assets[..i], assets[i]);
      byName := byName[records[i].name := records[i]];
    }
    assert assets[..|records|] == assets;
  }

  /** The record of every asset, from the find or from the upload. */
  method Merge(version: string, assets: seq<Asset>, found: map<string, Record>, uploaded: seq<Record>,
               ghost store: Store)
    returns (records: seq<Record>)
    requires Distinct(assets) && FoundIn(found, store, version, assets)
    requires uploaded == Records(version, Absent(store, version, assets))
    ensures records == Records(version, assets)
  {
    var additionally := Index(version, Absent(store, version, assets), uploaded);
    records := [];
    for i := 0 to |assets|
      invariant |records| == i && forall j :: 0 <= j < i ==> records[j] == RecordOf(version, assets[j])
    {
      var a := assets[i];
      assert a in assets;
      records := records + [if a.name in found then found[a.name] else additionally[a.name]];
    }
  }

  /** The first half of a `finalize` run: find, download, upload. */
  method MirrorAssets(env: Env, bucket: Bucket, directory: Directory, github: Files, version: string,
                      assets: seq<Asset>, schedule: Schedule, prerelease: bool)
    returns (r: Result<seq<Record>, Failure>)
    requires Permutes(schedule) && Distinct(assets) && directory.files == map[]
    modifies bucket, directory
    ensures r.Ok? ==>
              && AllCompatible(old(bucket.objects), version, assets)
              && AllSound(env, github, Absent(old(bucket.objects), version, assets))
              && r.value == Records(version, assets)
              && bucket.objects == UploadAll(env, old(bucket.objects), version,
                                             Absent(old(bucket.objects), version, assets), github)
    ensures r.Err? ==>
              || !AllCompatible(old(bucket.objects), version, assets)
              || !AllSound(env, github, Absent(old(bucket.objects), version, assets))
              || (!prerelease && !InstallersSound(env, github, assets))
    ensures r.Err? ==>
              bucket.objects == if AllCompatible(old(bucket.objects), version, assets)
                                   && Downloadable(old(bucket.objects), github, version, assets, prerelease)
                                then UploadAll(env, old(bucket.objects), version,
                                               Absent(old(bucket.objects), version, assets), github)
                                else old(bucket.objects)
    ensures r.Err? && AllCompatible(old(bucket.objects), version, assets)
            && Downloadable(old(bucket.objects), github, version, assets, prerelease) ==>
              !AllSound(env, github, Absent(old(bucket.objects), version, assets))
    ensures r.Ok? ==> Downloadable(old(bucket.objects), github, version, assets, prerelease)
    ensures Copies(directory.files, github)
    ensures r.Ok? && !prerelease ==> forall a :: a in assets && a.name in INSTALLERS ==> a.name in directory.files
  {
    ghost var before := bucket.objects;
    var found := FindPublishedAssets(bucket, version, assets, schedule);
    if found.Err? { return Err(found.error); }
    var previously := found.value;
    var remaining := Remaining(assets, previously, before, version);
    var required := remaining + if prerelease then [] else KnownInstallers(previously, assets);
    RequiredFiles(before, github, version, assets, previously, prerelease);
    var ok := directory.Download(github, required);
    if !ok {
      NotDownloadable(env, before, version, github, assets, previously, prerelease);
      return Err(NotOnGitHub);
    }
    assert forall a :: a in remaining ==> a in required;
    var outcome := PublishAssets(env, bucket, directory, version, remaining, schedule, true);
    CopiesUpload(env, before, version, remaining, directory.files, github);
    if outcome.Err? {
      if AllSound(env, directory.files, remaining) { SoundHold(env, before, version, assets, directory.files); }
      return Err(outcome.error);
    }
    var records := Merge(version, assets, previously, outcome.value, before);
    return Ok(records);
  }

  /** The files that are asked for are those that have to be downloadable. */
  lemma RequiredFiles(store: Store, github: Files, version: string, assets: seq<Asset>,
                      previously: map<string, Record>, prerelease: bool)
    requires FoundIn(previously, store, version, assets)
    ensures var required := Absent(store, version, assets) + if prerelease then [] else KnownInstallers(previously, assets);
            (forall a :: a in required ==> a.name in github)
            <==> Downloadable(store, github, version, assets, prerelease)
  {}

  lemma NotDownloadable(env: Env, store: Store, version: string, github: Files, assets: seq<Asset>,
                        previously: map<string, Record>, prerelease: bool)
    requires Distinct(assets)
    requires var required := Absent(store, version, assets) + if prerelease then [] else KnownInstallers(previously, assets);
             exists a :: a in required && a.name !in github
    ensures !AllSound(env, github, Absent(store, version, assets))
         || (!prerelease && !InstallersSound(env, github, assets))
  {
    var required := Absent(store, version, assets) + if prerelease then [] else KnownInstallers(previously, assets);
    var a :| a in required && a.name !in github;
    if a !in Absent(store, version, assets) {
      var i :| 0 <= i < |INSTALLERS| && INSTALLERS[i] == a.name;
      if HasInstallers(assets) { DistinctNames(assets, a, Named(assets, INSTALLERS[i]).value); }
    }
  }

  /** Uploads of missing assets with sound files always verify. */
  lemma SoundHold(env: Env, store: Store, version: string, assets: seq<Asset>, files: Files)
    requires AllSound(env, files, Absent(store, version, assets))
    ensures AllHold(UploadAll(env, store, version, Absent(store, version, assets), files), version,
                    Absent(store, version, assets))
  {
    var xs := Absent(store, version, assets);
    forall a | a in xs ensures AssetHolds(UploadAll(env, store, version, xs, files), version, a) {
      HoldsAfter(env, store, version, xs, files, a);
    }
  }

  /** Moves each channel and checks the header, which cannot fail here. */
  method MoveChannels(bucket: Bucket, channels: seq<string>, bytes: Bytes, sha256: string)
    modifies bucket
    ensures bucket.objects == Moved(old(bucket.objects), channels, bytes, sha256)
  {
    for i := 0 to |channels|
      invariant bucket.objects == Moved(old(bucket.objects), channels[..i], bytes, sha256)
    {
      assert channels[..i + 1][..i] == channels[..i];
      bucket.Upload(ChannelKey(channels[i]), bytes, sha256, true);
      var problem := bucket.Verify(ChannelKey(channels[i]), |bytes|, sha256);
      assert problem.None?;
    }
    assert channels[..|channels|] == channels;
  }

  /** No channel is touched. */
  ghost predicate ChannelsKept(before: Store, after: Store) {
    forall c :: (ChannelKey(c) in after <==> ChannelKey(c) in before)
             && (ChannelKey(c) in before ==> after[ChannelKey(c)] == before[ChannelKey(c)])
  }

  lemma UploadsKeep(env: Env, store: Store, version: string, order: seq<Asset>, files: Files)
    ensures var after := UploadAll(env, store, version, order, files);
            Grows(store, after) && ChannelsKept(store, after)
  {
    var after := UploadAll(env, store, version, order, files);
    forall k | k in store ensures k in after && after[k] == store[k] {
      UploadAllAt(env, store, version, order, files, k);
    }
    forall c | ChannelKey(c) !in store ensures ChannelKey(c) !in after {
      UploadAllAt(env, store, version, order, files, ChannelKey(c));
      forall a | a in order ensures ChannelKey(c) != AssetKey(version, a.name) {
        KeysApart(version, a.name, c, INSTALLERS[0]);
      }
    }
  }

  lemma MetadataKeeps(store: Store, version: string, bytes: Bytes, sha256: string)
    ensures var after := PutNew(store, MetadataKey(version), bytes, sha256);
            Grows(store, after) && ChannelsKept(store, after)
  {
    forall c ensures ChannelKey(c) != MetadataKey(version) { KeysApart(version, METADATA, c, INSTALLERS[0]); }
  }

  /** `release.json`: created if absent, then checked. */
  method PublishMetadata(env: Env, bucket: Bucket, version: string, text: Bytes)
    returns (failure: Option<Failure>, sha256: string)
    modifies bucket
    ensures sha256 == env.sha(text)
    ensures bucket.objects == PutNew(old(bucket.objects), MetadataKey(version), text, sha256)
    ensures failure.None? <==>
              (MetadataKey(version) in old(bucket.objects) ==>
                 Holds(old(bucket.objects), MetadataKey(version), |text|, sha256))
    ensures Grows(old(bucket.objects), bucket.objects) && ChannelsKept(old(bucket.objects), bucket.objects)
  {
    var size: nat;
    size, sha256 := StreamDigest(env, text);
    MetadataKeeps(bucket.objects, version, text, sha256);
    bucket.Upload(MetadataKey(version), text, sha256, false);
    failure := bucket.Verify(MetadataKey(version), size, sha256);
  }

  lemma AliasesKeep(before: Store, after: Store)
    requires forall k :: k !in [AliasKey(INSTALLERS[0]), AliasKey(INSTALLERS[1])] ==>
               && (k in after <==> k in before)
               && (k in after ==> after[k] == before[k])
    ensures Grows(before, after) && ChannelsKept(before, after)
  {
    AliasKeyMutable(INSTALLERS[0]);
    AliasKeyMutable(INSTALLERS[1]);
    forall c ensures ChannelKey(c) !in [AliasKey(INSTALLERS[0]), AliasKey(INSTALLERS[1])] {
      KeysApart("", "", c, INSTALLERS[0]);
      KeysApart("", "", c, INSTALLERS[1]);
    }
  }

  /** The metadata object after the uploads: there already, or not, as before. */
  lemma MetadataUntouched(env: Env, store: Store, version: string, assets: seq<Asset>, order: seq<Asset>, files: Files)
    requires ValidAssets(assets) && forall a :: a in order ==> a in assets
    ensures var after := UploadAll(env, store, version, order, files);
            && (MetadataKey(version) in after <==> MetadataKey(version) in store)
            && (MetadataKey(version) in store ==> after[MetadataKey(version)] == store[MetadataKey(version)])
  {
    UploadAllAt(env, store, version, order, files, MetadataKey(version));
    forall a | a in order ensures AssetKey(version, a.name) != MetadataKey(version) {
      NameOfKey(version, a.name);
      NameOfKey(version, METADATA);
    }
  }

  lemma AliasedCopies(store: Store, files: Files, github: Files, assets: seq<Asset>, n: nat)
    requires n <= |INSTALLERS| && HasInstallers(assets) && Copies(files, github)
    requires forall i :: 0 <= i < n ==> INSTALLERS[i] in files
    ensures Aliased(store, files, assets, n) == Aliased(store, github, assets, n)
  {
    if n > 0 { AliasedCopies(store, files, github, assets, n - 1); }
  }

  lemma KeepsSame(store: Store)
    ensures Grows(store, store) && ChannelsKept(store, store)
  {}

  lemma KeepsOn(a: Store, b: Store, c: Store)
    requires Grows(a, b) && ChannelsKept(a, b) && Grows(b, c) && ChannelsKept(b, c)
    ensures Grows(a, c) && ChannelsKept(a, c)
  {}

  // --- where a run can fail ---

  lemma FailedMirroring(env: Env, store: Store, github: Files, version: string, assets: seq<Asset>, prerelease: bool)
    requires AllCompatible(store, version, assets) && Downloadable(store, github, version, assets, prerelease) ==>
               !AllSound(env, github, Absent(store, version, assets))
    ensures Failed(env, store, github, version, assets, prerelease)
         == if AllCompatible(store, version, assets) && Downloadable(store, github, version, assets, prerelease)
            then UploadAll(env, store, version, Absent(store, version, assets), github) else store
  {}

  /** What holds once all assets are in the bucket. */
  ghost predicate Mirrored(env: Env, store: Store, github: Files, version: string, assets: seq<Asset>, prerelease: bool) {
    && AllCompatible(store, version, assets) && Downloadable(store, github, version, assets, prerelease)
    && AllSound(env, github, Absent(store, version, assets))
  }

  lemma FailedMetadata(env: Env, store: Store, github: Files, version: string, assets: seq<Asset>, prerelease: bool)
    requires Mirrored(env, store, github, version, assets, prerelease)
    requires var m := env.render(version, assets);
             MetadataKey(version) in store && !Holds(store, MetadataKey(version), |m|, env.sha(m))
    ensures Failed(env, store, github, version, assets, prerelease)
         == UploadAll(env, store, version, Absent(store, version, assets), github)
    ensures !CanFinalize(env, store, github, version, assets, prerelease)
  {}

  lemma FailedInstallers(env: Env, store: Store, github: Files, version: string, assets: seq<Asset>, files: Files)
    requires Mirrored(env, store, github, version, assets, false) && Copies(files, github)
    requires var m := env.render(version, assets);
             MetadataKey(version) in store ==> Holds(store, MetadataKey(version), |m|, env.sha(m))
    requires forall a :: a in assets && a.name in INSTALLERS ==> a.name in files
    ensures InstallersSound(env, files, assets) <==> InstallersSound(env, github, assets)
    ensures InstallersSound(env, github, assets) <==> CanFinalize(env, store, github, version, assets, false)
    ensures Failed(env, store, github, version, assets, false)
         == var published := Published(env, store, github, version, assets);
            if FirstInstallerSound(env, files, assets) then Aliased(published, files, assets, 1) else published
  {
    hide Published, AllSound, AllCompatible, Absent;
    if HasInstallers(assets) {
      var published := Published(env, store, github, version, assets);
      assert INSTALLERS[0] in INSTALLERS && INSTALLERS[1] in INSTALLERS;
      AliasedCopies(published, files, github, assets, 1);
    }
  }

  /** A whole `finalize` run. */
  method Finalize(env: Env, bucket: Bucket, github: Files, version: string, assets: seq<Asset>, schedule: Schedule,
                  makeLatest: bool, prerelease: bool)
    returns (r: Result<seq<Record>, Failure>)
    requires Permutes(schedule) && ValidAssets(assets)
    modifies bucket
    ensures r.Ok? <==> CanFinalize(env, old(bucket.objects), github, version, assets, prerelease)
    ensures r.Ok? ==>
              && bucket.objects == Finalized(env, old(bucket.objects), github, version, assets, makeLatest, prerelease)
              && r.value == Records(version, assets)
    ensures r.Err? ==> bucket.objects == Failed(env, old(bucket.objects), github, version, assets, prerelease)
    ensures r.Err? ==> Grows(old(bucket.objects), bucket.objects) && ChannelsKept(old(bucket.objects), bucket.objects)
  {
    hide Failed, UploadAll, Absent, Aliased, Moved, AllSound, AllCompatible, Downloadable, FirstInstallerSound;
    hide Grows, ChannelsKept;
    ghost var before := bucket.objects;
    ghost var missing := Absent(before, version, assets);
    var directory := new Directory();
    var mirrored := MirrorAssets(env, bucket, directory, github, version, assets, schedule, prerelease);
    UploadsKeep(env, before, version, missing, github);
    if mirrored.Err? {
      FailedMirroring(env, before, github, version, assets, prerelease);
      KeepsSame(before);
      return mirrored;
    }
    MetadataUntouched(env, before, version, assets, missing, github);
    ghost var s1 := bucket.objects;
    var text := env.render(version, assets);
    var problem, sha256 := PublishMetadata(env, bucket, version, text);
    ghost var s2 := bucket.objects;
    KeepsOn(before, s1, s2);
    if problem.Some? {
      FailedMetadata(env, before, github, version, assets, prerelease);
      return Err(problem.value);
    }
    if !prerelease {
      FailedInstallers(env, before, github, version, assets, directory.files);
      problem := PublishInstallers(env, bucket, directory, assets);
      AliasesKeep(s2, bucket.objects);
      KeepsOn(before, s2, bucket.objects);
      if problem.Some? { return Err(problem.value); }
      AliasedCopies(s2, directory.files, github, assets, |INSTALLERS|);
    }
    MoveChannels(bucket, Channels(makeLatest, prerelease), text, sha256);
    return mirrored;
  }

  /** A whole `assets` run: everything is downloaded and uploaded, nothing is verified. */
  method AssetsStage(env: Env, bucket: Bucket, github: Files, version: string, assets: seq<Asset>, schedule: Schedule)
    returns (r: Result<seq<Record>, Failure>)
    requires Permutes(schedule) && ValidAssets(assets)
    modifies bucket
    ensures r.Ok? <==> AllSound(env, github, assets)
    ensures r.Ok? ==>
              && bucket.objects == UploadAll(env, old(bucket.objects), version, assets, github)
              && r.value == Records(version, assets)
    ensures r.Err? ==>
              bucket.objects == if forall a :: a in assets ==> a.name in github
                                then UploadAll(env, old(bucket.objects), version, assets, github) else old(bucket.objects)
    ensures r.Err? ==> Grows(old(bucket.objects), bucket.objects) && ChannelsKept(old(bucket.objects), bucket.objects)
  {
    var directory := new Directory();
    var ok := directory.Download(github, assets);
    if !ok { return Err(NotOnGitHub); }
    ghost var before := bucket.objects;
    CopiesUpload(env, before, version, assets, directory.files, github);
    r := PublishAssets(env, bucket, directory, version, assets, schedule, false);
    UploadsKeep(env, before, version, assets, github);
  }
}
