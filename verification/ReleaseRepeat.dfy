/** Running a successful `finalize` again changes nothing. */
module ReleaseRepeat {
  import opened Text
  import opened VersionGrammar
  import opened ReleaseKeys
  import opened ReleaseStore
  import opened ReleaseUploads
  import opened ReleasePublisher
  import opened ReleaseFinalize
  import opened ReleaseRecovery

  /** After a successful run everything listed is there and holds. */
  lemma PublishedHolds(env: Env, store: Store, github: Files, version: string, assets: seq<Asset>, prerelease: bool)
    requires ValidAssets(assets) && CanFinalize(env, store, github, version, assets, prerelease)
    ensures var after := Published(env, store, github, version, assets);
            var m := env.render(version, assets);
            && AllHold(after, version, assets)
            && Holds(after, MetadataKey(version), |m|, env.sha(m))
  {
    var missing := Absent(store, version, assets);
    MetadataUntouched(env, store, version, assets, missing, github);
    var uploaded := UploadAll(env, store, version, missing, github);
    var after := Published(env, store, github, version, assets);
    forall a | a in assets ensures AssetHolds(after, version, a) {
      NamesApart(version, a, assets);
      if AssetKey(version, a.name) in store {
        assert Compatible(store, version, a);
        UploadAllAt(env, store, version, missing, github, AssetKey(version, a.name));
      } else {
        HoldsAfter(env, store, version, missing, github, a);
      }
    }
  }

  lemma {:induction false} NothingAbsent(store: Store, version: string, assets: seq<Asset>)
    requires AllHold(store, version, assets)
    ensures Absent(store, version, assets) == []
  {
    if assets != [] {
      assert assets[0] in assets;
      NothingAbsent(store, version, assets[1..]);
    }
  }

  /** With every asset and the metadata in place, publishing is the identity. */
  lemma PublishedFixed(env: Env, store: Store, github: Files, version: string, assets: seq<Asset>)
    requires AllHold(store, version, assets) && MetadataKey(version) in store
    ensures Published(env, store, github, version, assets) == store
  {
    NothingAbsent(store, version, assets);
  }

  function AliasObject(github: Files, assets: seq<Asset>, i: nat): Object
    requires i < |INSTALLERS| && HasInstallers(assets) && INSTALLERS[i] in github
  {
    Object(github[INSTALLERS[i]], Named(assets, INSTALLERS[i]).value.sha256)
  }

  lemma {:induction false} AliasedAt(store: Store, github: Files, assets: seq<Asset>, n: nat, i: nat)
    requires i < n <= |INSTALLERS| && HasInstallers(assets) && forall j :: 0 <= j < n ==> INSTALLERS[j] in github
    ensures var after := Aliased(store, github, assets, n);
            AliasKey(INSTALLERS[i]) in after && after[AliasKey(INSTALLERS[i])] == AliasObject(github, assets, i)
  {
    if i < n - 1 {
      AliasedAt(store, github, assets, n - 1, i);
      assert INSTALLERS[0] != INSTALLERS[1] && AliasKey(INSTALLERS[0])[|ROOT|..] == INSTALLERS[0]
          && AliasKey(INSTALLERS[1])[|ROOT|..] == INSTALLERS[1];
    }
  }

  lemma {:induction false} AliasedFixed(store: Store, github: Files, assets: seq<Asset>, n: nat)
    requires n <= |INSTALLERS| && HasInstallers(assets) && forall i :: 0 <= i < n ==> INSTALLERS[i] in github
    requires forall i :: 0 <= i < n ==>
               AliasKey(INSTALLERS[i]) in store && store[AliasKey(INSTALLERS[i])] == AliasObject(github, assets, i)
    ensures Aliased(store, github, assets, n) == store
  {
    if n > 0 { AliasedFixed(store, github, assets, n - 1); }
  }

  lemma {:induction false} MovedAt(store: Store, channels: seq<string>, bytes: Bytes, sha256: string, i: nat)
    requires i < |channels|
    ensures var after := Moved(store, channels, bytes, sha256);
            ChannelKey(channels[i]) in after && after[ChannelKey(channels[i])] == Object(bytes, sha256)
  {
    if i < |channels| - 1 { MovedAt(store, channels[..|channels| - 1], bytes, sha256, i); }
  }

  lemma {:induction false} MovedFixed(store: Store, channels: seq<string>, bytes: Bytes, sha256: string)
    requires forall i :: 0 <= i < |channels| ==>
               ChannelKey(channels[i]) in store && store[ChannelKey(channels[i])] == Object(bytes, sha256)
    ensures Moved(store, channels, bytes, sha256) == store
  {
    if channels != [] { MovedFixed(store, channels[..|channels| - 1], bytes, sha256); }
  }

  /** What a finished run leaves under its prefix still holds. */
  lemma FinalizedHolds(env: Env, store: Store, github: Files, version: string, assets: seq<Asset>,
                       makeLatest: bool, prerelease: bool)
    requires ValidAssets(assets) && CanFinalize(env, store, github, version, assets, prerelease)
    ensures var after := Finalized(env, store, github, version, assets, makeLatest, prerelease);
            var m := env.render(version, assets);
            && AllHold(after, version, assets)
            && Holds(after, MetadataKey(version), |m|, env.sha(m))
  {
    PublishedHolds(env, store, github, version, assets, prerelease);
    var published := Published(env, store, github, version, assets);
    var after := Finalized(env, store, github, version, assets, makeLatest, prerelease);
    AssetKeyVersioned(version, METADATA);
    FinalizedVersioned(env, store, github, version, assets, makeLatest, prerelease, MetadataKey(version));
    forall a | a in assets ensures AssetHolds(after, version, a) {
      AssetKeyVersioned(version, a.name);
      FinalizedVersioned(env, store, github, version, assets, makeLatest, prerelease, AssetKey(version, a.name));
      assert AssetHolds(published, version, a);
    }
  }

  lemma FinalizedAliases(env: Env, store: Store, github: Files, version: string, assets: seq<Asset>,
                         makeLatest: bool, i: nat)
    requires InstallersSound(env, github, assets) && i < |INSTALLERS|
    ensures INSTALLERS[i] in github
    ensures var after := Finalized(env, store, github, version, assets, makeLatest, false);
            AliasKey(INSTALLERS[i]) in after && after[AliasKey(INSTALLERS[i])] == AliasObject(github, assets, i)
  {
    InstallersOnGithub(env, github, assets);
    var published := Published(env, store, github, version, assets);
    var aliased := Aliased(published, github, assets, |INSTALLERS|);
    AliasedAt(published, github, assets, |INSTALLERS|, i);
    var m := env.render(version, assets);
    KeysApart("", "", "latest", INSTALLERS[i]);
    MovedElsewhere(aliased, Channels(makeLatest, false), m, env.sha(m), AliasKey(INSTALLERS[i]));
  }

  lemma FinalizedChannels(env: Env, store: Store, github: Files, version: string, assets: seq<Asset>,
                          makeLatest: bool, prerelease: bool, i: nat)
    requires !prerelease ==> InstallersSound(env, github, assets)
    requires i < |Channels(makeLatest, prerelease)|
    ensures var after := Finalized(env, store, github, version, assets, makeLatest, prerelease);
            var key := ChannelKey(Channels(makeLatest, prerelease)[i]);
            var m := env.render(version, assets);
            key in after && after[key] == Object(m, env.sha(m))
  {
    if !prerelease { InstallersOnGithub(env, github, assets); }
    var published := Published(env, store, github, version, assets);
    var aliased := if prerelease then published else Aliased(published, github, assets, |INSTALLERS|);
    var m := env.render(version, assets);
    MovedAt(aliased, Channels(makeLatest, prerelease), m, env.sha(m), i);
  }

  /** A second run after a successful one succeeds and leaves the whole bucket as it is. */
  lemma FinalizeTwice(env: Env, store: Store, github: Files, version: string, assets: seq<Asset>,
                      makeLatest: bool, prerelease: bool)
    requires ValidAssets(assets) && CanFinalize(env, store, github, version, assets, prerelease)
    ensures var after := Finalized(env, store, github, version, assets, makeLatest, prerelease);
            && CanFinalize(env, after, github, version, assets, prerelease)
            && Finalized(env, after, github, version, assets, makeLatest, prerelease) == after
  {
    var after := Finalized(env, store, github, version, assets, makeLatest, prerelease);
    var m := env.render(version, assets);
    FinalizedHolds(env, store, github, version, assets, makeLatest, prerelease);
    NothingAbsent(after, version, assets);
    PublishedFixed(env, after, github, version, assets);
    if !prerelease {
      InstallersOnGithub(env, github, assets);
      forall i | 0 <= i < |INSTALLERS|
        ensures AliasKey(INSTALLERS[i]) in after && after[AliasKey(INSTALLERS[i])] == AliasObject(github, assets, i)
      {
        FinalizedAliases(env, store, github, version, assets, makeLatest, i);
      }
      AliasedFixed(after, github, assets, |INSTALLERS|);
    }
    forall i | 0 <= i < |Channels(makeLatest, prerelease)|
      ensures var key := ChannelKey(Channels(makeLatest, prerelease)[i]);
              key in after && after[key] == Object(m, env.sha(m))
    {
      FinalizedChannels(env, store, github, version, assets, makeLatest, prerelease, i);
    }
    MovedFixed(after, Channels(makeLatest, prerelease), m, env.sha(m));
  }
}
