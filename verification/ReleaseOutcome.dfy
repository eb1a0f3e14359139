/** What a successful `finalize` stage leaves at every key of the bucket, with the keys spelled out, and
    what it reports. */
module ReleaseOutcome {
  import opened Text
  import opened VersionGrammar
  import opened ReleaseKeys
  import opened ReleaseStore
  import opened ReleaseUploads
  import opened ReleasePublisher
  import opened ReleaseFinalize
  import opened ReleaseRecovery
  import opened ReleaseRepeat

  /** The key holds what it held before. */
  ghost predicate Same(before: Store, after: Store, key: string) {
    (key in after <==> key in before) && (key in before ==> after[key] == before[key])
  }

  ghost predicate Written(after: Store, key: string, bytes: Bytes, sha256: string) {
    key in after && after[key].bytes == bytes && after[key].sha256 == sha256
  }

  /** The channels: `latest` moves exactly for a run that is to make the release the latest, `prerelease`
      exactly for a pre-release, and both to this version's metadata. */
  lemma ChannelsAfter(env: Env, store: Store, github: Files, version: string, assets: seq<Asset>,
                      makeLatest: bool, prerelease: bool)
    requires CanFinalize(env, store, github, version, assets, prerelease)
    ensures var after := Finalized(env, store, github, version, assets, makeLatest, prerelease);
            var m := env.render(version, assets);
            && (if makeLatest then Written(after, "codex/channels/latest", m, env.sha(m))
                else Same(store, after, "codex/channels/latest"))
            && (if prerelease then Written(after, "codex/channels/prerelease", m, env.sha(m))
                else Same(store, after, "codex/channels/prerelease"))
            && forall c: string :: c != "latest" && c != "prerelease" ==> Same(store, after, "codex/channels/" + c)
  {
    hide Finalized, CanFinalize;
    FinalizedSound(env, store, github, version, assets, prerelease);
    forall c: string
      ensures var after := Finalized(env, store, github, version, assets, makeLatest, prerelease);
              var m := env.render(version, assets);
              if (c == "latest" && makeLatest) || (c == "prerelease" && prerelease)
              then Written(after, "codex/channels/" + c, m, env.sha(m)) else Same(store, after, "codex/channels/" + c)
    {
      ChannelAfter(env, store, github, version, assets, makeLatest, prerelease, c);
    }
    assert "codex/channels/" + "latest" == "codex/channels/latest";
    assert "codex/channels/" + "prerelease" == "codex/channels/prerelease";
  }

  lemma ChannelAfter(env: Env, store: Store, github: Files, version: string, assets: seq<Asset>,
                     makeLatest: bool, prerelease: bool, c: string)
    requires CanFinalize(env, store, github, version, assets, prerelease)
    ensures var after := Finalized(env, store, github, version, assets, makeLatest, prerelease);
            var m := env.render(version, assets);
            if (c == "latest" && makeLatest) || (c == "prerelease" && prerelease)
            then Written(after, "codex/channels/" + c, m, env.sha(m)) else Same(store, after, "codex/channels/" + c)
  {
    hide CanFinalize, Published, Aliased, Moved;
    var key := "codex/channels/" + c;
    var m := env.render(version, assets);
    FinalizedSound(env, store, github, version, assets, prerelease);
    var published := Published(env, store, github, version, assets);
    PublishedKeeps(env, store, github, version, assets, key, c);
    ChannelNotAlias(c);
    if !prerelease {
      InstallersOnGithub(env, github, assets);
      AliasedElsewhere(published, github, assets, |INSTALLERS|, key);
    }
    var aliased := if prerelease then published else Aliased(published, github, assets, |INSTALLERS|);
    MovedToOne(aliased, makeLatest, prerelease, m, env.sha(m), c);
  }

  lemma FinalizedSound(env: Env, store: Store, github: Files, version: string, assets: seq<Asset>, prerelease: bool)
    requires CanFinalize(env, store, github, version, assets, prerelease)
    ensures !prerelease ==> InstallersSound(env, github, assets)
  {}

  lemma ChannelNotAlias(c: string)
    ensures forall i :: 0 <= i < |INSTALLERS| ==> "codex/channels/" + c != AliasKey(INSTALLERS[i])
  {
    KeysApart("", "", c, INSTALLERS[0]);
    KeysApart("", "", c, INSTALLERS[1]);
  }

  /** Publishing touches no channel. */
  lemma PublishedKeeps(env: Env, store: Store, github: Files, version: string, assets: seq<Asset>, key: string, c: string)
    requires key == "codex/channels/" + c
    ensures Same(store, Published(env, store, github, version, assets), key)
  {
    var missing := Absent(store, version, assets);
    var m := env.render(version, assets);
    UploadAllAt(env, store, version, missing, github, key);
    KeysApart(version, METADATA, c, INSTALLERS[0]);
    forall a | a in missing ensures key != AssetKey(version, a.name) { KeysApart(version, a.name, c, INSTALLERS[0]); }
  }

  lemma MovedToOne(store: Store, makeLatest: bool, prerelease: bool, bytes: Bytes, sha256: string, c: string)
    ensures var after := Moved(store, Channels(makeLatest, prerelease), bytes, sha256);
            if (c == "latest" && makeLatest) || (c == "prerelease" && prerelease)
            then Written(after, "codex/channels/" + c, bytes, sha256) else Same(store, after, "codex/channels/" + c)
  {
    hide Moved;
    var cs := Channels(makeLatest, prerelease);
    assert "codex/channels/" + c == ChannelKey(c);
    forall d: string ensures ChannelKey(d) == ChannelKey(c) <==> d == c {
      assert ChannelKey(d)[|CHANNELS|..] == d && ChannelKey(c)[|CHANNELS|..] == c;
    }
    assert c in cs <==> (c == "latest" && makeLatest) || (c == "prerelease" && prerelease);
    if c in cs {
      var i :| 0 <= i < |cs| && cs[i] == c;
      MovedAt(store, cs, bytes, sha256, i);
    } else {
      MovedElsewhere(store, cs, bytes, sha256, "codex/channels/" + c);
    }
  }

  /** The installers: a stable run copies both to the top level, with the contents GitHub has and the digest
      of these contents; a pre-release leaves them alone. */
  lemma InstallersAfter(env: Env, store: Store, github: Files, version: string, assets: seq<Asset>,
                        makeLatest: bool, prerelease: bool)
    requires CanFinalize(env, store, github, version, assets, prerelease)
    ensures var after := Finalized(env, store, github, version, assets, makeLatest, prerelease);
            if prerelease then Same(store, after, "codex/install.sh") && Same(store, after, "codex/install.ps1")
            else
              && "install.sh" in github && "install.ps1" in github
              && Written(after, "codex/install.sh", github["install.sh"], env.sha(github["install.sh"]))
              && Written(after, "codex/install.ps1", github["install.ps1"], env.sha(github["install.ps1"]))
  {
    hide CanFinalize, Published, Aliased, Moved, Finalized;
    FinalizedSound(env, store, github, version, assets, prerelease);
    assert "codex/" + "install.sh" == "codex/install.sh" && "codex/" + "install.ps1" == "codex/install.ps1";
    if prerelease {
      AliasLeft(env, store, github, version, assets, makeLatest, 0);
      AliasLeft(env, store, github, version, assets, makeLatest, 1);
    } else {
      InstallersOnGithub(env, github, assets);
      FinalizedAliases(env, store, github, version, assets, makeLatest, 0);
      FinalizedAliases(env, store, github, version, assets, makeLatest, 1);
    }
  }

  lemma AliasLeft(env: Env, store: Store, github: Files, version: string, assets: seq<Asset>, makeLatest: bool, i: nat)
    requires i < |INSTALLERS|
    ensures Same(store, Finalized(env, store, github, version, assets, makeLatest, true), AliasKey(INSTALLERS[i]))
  {
    hide Moved, Absent;
    var key := AliasKey(INSTALLERS[i]);
    var m := env.render(version, assets);
    UploadAllAt(env, store, version, Absent(store, version, assets), github, key);
    KeysApart(version, METADATA, "", INSTALLERS[i]);
    forall a | a in Absent(store, version, assets) ensures key != AssetKey(version, a.name) {
      KeysApart(version, a.name, "", INSTALLERS[i]);
    }
    var cs := Channels(makeLatest, true);
    forall k | 0 <= k < |cs| ensures key != ChannelKey(cs[k]) { KeysApart("", "", cs[k], INSTALLERS[i]); }
    MovedElsewhere(Published(env, store, github, version, assets), cs, m, env.sha(m), key);
  }

  /** The version's prefix: each listed file is there with GitHub's contents unless it was there before, the
      metadata likewise. */
  lemma VersionAfter(env: Env, store: Store, github: Files, version: string, assets: seq<Asset>,
                     makeLatest: bool, prerelease: bool)
    requires ValidAssets(assets) && CanFinalize(env, store, github, version, assets, prerelease)
    ensures var after := Finalized(env, store, github, version, assets, makeLatest, prerelease);
            var m := env.render(version, assets);
            var prefix := "codex/releases/" + version + "/";
            && (forall a :: a in assets ==>
                  if prefix + a.name in store then Same(store, after, prefix + a.name)
                  else a.name in github && Written(after, prefix + a.name, github[a.name], env.sha(github[a.name])))
            && (if prefix + "release.json" in store then Same(store, after, prefix + "release.json")
                else Written(after, prefix + "release.json", m, env.sha(m)))
  {
    hide CanFinalize, Published, Finalized;
    FinalizedSound(env, store, github, version, assets, prerelease);
    AssetKeyVersioned(version, METADATA);
    FinalizedVersioned(env, store, github, version, assets, makeLatest, prerelease, MetadataKey(version));
    MetadataObject(env, store, github, version, assets, prerelease);
    forall a | a in assets
      ensures var after := Finalized(env, store, github, version, assets, makeLatest, prerelease);
              var key := "codex/releases/" + version + "/" + a.name;
              if key in store then Same(store, after, key)
              else a.name in github && Written(after, key, github[a.name], env.sha(github[a.name]))
    {
      AssetKeyVersioned(version, a.name);
      FinalizedVersioned(env, store, github, version, assets, makeLatest, prerelease, AssetKey(version, a.name));
      ListedObject(env, store, github, version, assets, prerelease, a);
    }
  }

  lemma MetadataObject(env: Env, store: Store, github: Files, version: string, assets: seq<Asset>, prerelease: bool)
    requires ValidAssets(assets) && CanFinalize(env, store, github, version, assets, prerelease)
    ensures var published := Published(env, store, github, version, assets);
            var key := "codex/releases/" + version + "/" + "release.json";
            var m := env.render(version, assets);
            if key in store then Same(store, published, key) else Written(published, key, m, env.sha(m))
  {
    MetadataUntouched(env, store, version, assets, Absent(store, version, assets), github);
  }

  lemma ListedObject(env: Env, store: Store, github: Files, version: string, assets: seq<Asset>, prerelease: bool, a: Asset)
    requires ValidAssets(assets) && CanFinalize(env, store, github, version, assets, prerelease) && a in assets
    ensures var published := Published(env, store, github, version, assets);
            var key := "codex/releases/" + version + "/" + a.name;
            if key in store then Same(store, published, key)
            else a.name in github && Written(published, key, github[a.name], env.sha(github[a.name]))
  {
    var missing := Absent(store, version, assets);
    var key := AssetKey(version, a.name);
    NamesApart(version, a, assets);
    NameOfKey(version, a.name);
    UploadAllAt(env, store, version, missing, github, key);
    if key !in store { assert a in missing && Sound(env, github, a); }
  }

  /** Nothing else in the bucket changes. */
  lemma ElsewhereAfter(env: Env, store: Store, github: Files, version: string, assets: seq<Asset>,
                       makeLatest: bool, prerelease: bool, key: string)
    requires CanFinalize(env, store, github, version, assets, prerelease)
    requires key != "codex/channels/latest" && key != "codex/channels/prerelease"
    requires key != "codex/install.sh" && key != "codex/install.ps1"
    requires key != "codex/releases/" + version + "/release.json"
    requires forall a :: a in assets ==> key != "codex/releases/" + version + "/" + a.name
    ensures Same(store, Finalized(env, store, github, version, assets, makeLatest, prerelease), key)
  {
    hide Moved, Aliased, UploadAll, Absent;
    var m := env.render(version, assets);
    var missing := Absent(store, version, assets);
    assert "codex/" + "install.sh" == "codex/install.sh" && "codex/" + "install.ps1" == "codex/install.ps1";
    assert "codex/channels/" + "latest" == "codex/channels/latest";
    assert "codex/channels/" + "prerelease" == "codex/channels/prerelease";
    assert "codex/releases/" + version + "/" + "release.json" == "codex/releases/" + version + "/release.json";
    UploadAllAt(env, store, version, missing, github, key);
    var published := Published(env, store, github, version, assets);
    if !prerelease {
      InstallersOnGithub(env, github, assets);
      AliasedElsewhere(published, github, assets, |INSTALLERS|, key);
    }
    var aliased := if prerelease then published else Aliased(published, github, assets, |INSTALLERS|);
    MovedElsewhere(aliased, Channels(makeLatest, prerelease), m, env.sha(m), key);
  }

  /** All missing files are sound, and the metadata is not another one: what comes before the installers. */
  ghost predicate AssetsFine(env: Env, store: Store, github: Files, version: string, assets: seq<Asset>) {
    var m := env.render(version, assets);
    var key := "codex/releases/" + version + "/release.json";
    && (forall a :: a in assets && "codex/releases/" + version + "/" + a.name !in store ==> Sound(env, github, a))
    && (key in store ==> |store[key].bytes| == |m| && store[key].sha256 == env.sha(m))
  }

  /** A run that fails after its download has uploaded the sound files that were missing. */
  lemma FailureAssets(env: Env, store: Store, github: Files, version: string, assets: seq<Asset>, prerelease: bool, a: Asset)
    requires ValidAssets(assets) && a in assets
    requires AllCompatible(store, version, assets) && Downloadable(store, github, version, assets, prerelease)
    requires "codex/releases/" + version + "/" + a.name !in store && Sound(env, github, a)
    ensures Written(Failed(env, store, github, version, assets, prerelease), "codex/releases/" + version + "/" + a.name,
                    github[a.name], env.sha(github[a.name]))
  {
    hide UploadAll, Absent, Sound, Failed, Published, AssetsFine, ValidAssets;
    FailedCases(env, store, github, version, assets, prerelease);
    MissingUploaded(env, store, github, version, assets, a);
    KeysApart(version, a.name, "", INSTALLERS[0]);
    assert "codex/" + "install.sh" == "codex/install.sh";
  }

  /** It has written the metadata only if nothing was wrong with the assets. */
  lemma FailureMetadata(env: Env, store: Store, github: Files, version: string, assets: seq<Asset>, prerelease: bool)
    requires ValidAssets(assets)
    requires AllCompatible(store, version, assets) && Downloadable(store, github, version, assets, prerelease)
    ensures var after := Failed(env, store, github, version, assets, prerelease);
            var key := "codex/releases/" + version + "/release.json";
            var m := env.render(version, assets);
            if AssetsFine(env, store, github, version, assets) && key !in store then Written(after, key, m, env.sha(m))
            else Same(store, after, key)
  {
    hide UploadAll, Absent, Sound, Failed, AssetsFine, ValidAssets;
    FailedCases(env, store, github, version, assets, prerelease);
    MetadataUntouched(env, store, version, assets, Absent(store, version, assets), github);
    KeysApart(version, METADATA, "", INSTALLERS[0]);
    assert "codex/" + "install.sh" == "codex/install.sh";
    assert "codex/releases/" + version + "/" + "release.json" == "codex/releases/" + version + "/release.json";
  }

  /** Then it refreshes the first installer alias if both are listed and the first is sound, and never the
      second one. */
  lemma FailureInstallers(env: Env, store: Store, github: Files, version: string, assets: seq<Asset>, prerelease: bool)
    requires AllCompatible(store, version, assets) && Downloadable(store, github, version, assets, prerelease)
    ensures var after := Failed(env, store, github, version, assets, prerelease);
            && Same(store, after, "codex/install.ps1")
            && if AssetsFine(env, store, github, version, assets) && HasInstallers(assets)
                  && Sound(env, github, Named(assets, "install.sh").value)
               then "install.sh" in github
                    && Written(after, "codex/install.sh", github["install.sh"], env.sha(github["install.sh"]))
               else Same(store, after, "codex/install.sh")
  {
    hide UploadAll, Absent, Sound, Failed, AssetsFine, Published;
    FailedCases(env, store, github, version, assets, prerelease);
    AliasUntouched(env, store, github, version, assets, 0);
    AliasUntouched(env, store, github, version, assets, 1);
    assert "codex/" + "install.sh" == "codex/install.sh" && "codex/" + "install.ps1" == "codex/install.ps1";
    assert "codex/install.sh"[|"codex/install.sh"| - 1] == 'h' && "codex/install.ps1"[|"codex/install.ps1"| - 1] == '1';
  }

  /** A run that fails before leaves the bucket as it was. */
  lemma FailureBefore(env: Env, store: Store, github: Files, version: string, assets: seq<Asset>, prerelease: bool)
    requires !(AllCompatible(store, version, assets) && Downloadable(store, github, version, assets, prerelease))
    ensures Failed(env, store, github, version, assets, prerelease) == store
  {}

  lemma FineMeans(env: Env, store: Store, github: Files, version: string, assets: seq<Asset>)
    ensures var m := env.render(version, assets);
            AssetsFine(env, store, github, version, assets) <==>
              && AllSound(env, github, Absent(store, version, assets))
              && (MetadataKey(version) in store ==> Holds(store, MetadataKey(version), |m|, env.sha(m)))
  {
    assert "codex/releases/" + version + "/" + "release.json" == "codex/releases/" + version + "/release.json";
  }

  lemma AliasUntouched(env: Env, store: Store, github: Files, version: string, assets: seq<Asset>, i: nat)
    requires i < |INSTALLERS|
    ensures var key := AliasKey(INSTALLERS[i]);
            && Same(store, UploadAll(env, store, version, Absent(store, version, assets), github), key)
            && Same(store, Published(env, store, github, version, assets), key)
  {
    hide Absent;
    var key := AliasKey(INSTALLERS[i]);
    UploadAllAt(env, store, version, Absent(store, version, assets), github, key);
    KeysApart(version, METADATA, "", INSTALLERS[i]);
    forall a | a in Absent(store, version, assets) ensures key != AssetKey(version, a.name) {
      KeysApart(version, a.name, "", INSTALLERS[i]);
    }
  }

  lemma MissingUploaded(env: Env, store: Store, github: Files, version: string, assets: seq<Asset>, a: Asset)
    requires ValidAssets(assets) && a in assets && AssetKey(version, a.name) !in store && Sound(env, github, a)
    ensures var key := AssetKey(version, a.name);
            && key != MetadataKey(version)
            && Written(UploadAll(env, store, version, Absent(store, version, assets), github), key, github[a.name],
                       env.sha(github[a.name]))
            && Written(Published(env, store, github, version, assets), key, github[a.name], env.sha(github[a.name]))
  {
    NamesApart(version, a, assets);
    NameOfKey(version, a.name);
    UploadAllAt(env, store, version, Absent(store, version, assets), github, AssetKey(version, a.name));
  }

  lemma FailedCases(env: Env, store: Store, github: Files, version: string, assets: seq<Asset>, prerelease: bool)
    requires AllCompatible(store, version, assets) && Downloadable(store, github, version, assets, prerelease)
    ensures var after := Failed(env, store, github, version, assets, prerelease);
            var fine := AssetsFine(env, store, github, version, assets);
            var published := Published(env, store, github, version, assets);
            var first := fine && HasInstallers(assets) && Sound(env, github, Named(assets, "install.sh").value);
            && (first ==> "install.sh" in github
                          && after == published["codex/install.sh" := Object(github["install.sh"], env.sha(github["install.sh"]))])
            && (fine && !first ==> after == published)
            && (!fine ==> after == UploadAll(env, store, version, Absent(store, version, assets), github))
  {
    hide UploadAll, Absent, AllCompatible, Downloadable, AllSound, Published, AssetsFine;
    FineMeans(env, store, github, version, assets);
    assert "codex/" + "install.sh" == "codex/install.sh";
    var published := Published(env, store, github, version, assets);
    if FirstInstallerSound(env, github, assets) { assert Aliased(published, github, assets, 0) == published; }
  }

  /** What both stages report of an asset. */
  lemma RecordsSpelled(version: string, assets: seq<Asset>, i: nat)
    requires i < |assets|
    ensures |Records(version, assets)| == |assets|
    ensures var r := Records(version, assets)[i];
            && r.key == "codex/releases/" + version + "/" + assets[i].name && r.name == assets[i].name
            && r.sha256 == assets[i].sha256 && r.size == assets[i].size
  {}
}
