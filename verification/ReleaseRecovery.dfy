/** Retrying: from whatever earlier runs of the same release left behind, one undisturbed
    `finalize` run succeeds and ends where a first run would have ended. */
module ReleaseRecovery {
  import opened Text
  import opened VersionGrammar
  import opened ReleaseKeys
  import opened ReleaseStore
  import P = ReleaseProtocol
  import S = ReleaseSafety
  import opened ReleaseUploads
  import opened ReleasePublisher
  import opened ReleaseFinalize

  /** An object under the release's prefix is one of those the release is to have. */
  ghost predicate OnTarget(env: Env, store: Store, version: string, listing: seq<Asset>, key: string)
    requires key in store
  {
    || (exists a :: a in listing && key == AssetKey(version, a.name) && Holds(store, key, a.size, a.sha256))
    || (key == MetadataKey(version) && store[key].bytes == env.render(version, listing))
  }

  /** A release published in part: nothing under its prefix that does not belong there. */
  ghost predicate Partial(env: Env, store: Store, version: string, listing: seq<Asset>) {
    forall k :: k in store && VersionPrefix(version) <= k ==> OnTarget(env, store, version, listing, k)
  }

  /** A run of this release starts from this listing; an `assets` run may see only a part of it. */
  ghost predicate StartsFrom(a: P.Action, version: string, listing: seq<Asset>) {
    a.Start? && a.version == version ==>
      && (a.finalize ==> a.listing == listing)
      && forall x :: x in a.listing ==> x in listing
  }

  ghost predicate SameListing(actions: seq<P.Action>, version: string, listing: seq<Asset>) {
    forall i :: 0 <= i < |actions| ==> StartsFrom(actions[i], version, listing)
  }

  ghost predicate RunFollows(r: P.Run, version: string, listing: seq<Asset>) {
    r.version == version ==>
      && (r.finalize ==> r.assets == listing)
      && forall x :: x in r.assets ==> x in listing
  }

  ghost predicate RunsFollow(s: P.State, version: string, listing: seq<Asset>) {
    forall id :: id in s.runs ==> RunFollows(s.runs[id], version, listing)
  }

  ghost predicate SameJob(r: P.Run, r': P.Run) {
    r'.version == r.version && r'.finalize == r.finalize && r'.assets == r.assets
  }

  /** No run changes its version, its kind or its listing. */
  ghost predicate JobsKept(s: P.State, s': P.State) {
    s'.runs.Keys == s.runs.Keys && forall k :: k in s.runs ==> SameJob(s.runs[k], s'.runs[k])
  }

  lemma SetKeepsJobs(s: P.State, id: nat)
    requires id in s.runs
    ensures forall s': P.State, r :: s'.runs == s.runs && SameJob(s.runs[id], r) ==> JobsKept(s, P.Set(s', id, r))
    ensures JobsKept(s, s)
  {}

  lemma ActKeepsJobs(env: Env, s: P.State, id: nat, a: P.Action)
    requires id in s.runs && !a.Start?
    ensures JobsKept(s, P.Act(env, s, id, s.runs[id], a))
  {
    hide JobsKept, P.Set, Holds, Validates, HasInstallers, Named, PutNew, AssetKey, P.Metadata, P.ChannelsOf;
    SetKeepsJobs(s, id);
  }

  lemma RunsFollowStep(env: Env, s: P.State, a: P.Action, version: string, listing: seq<Asset>)
    requires RunsFollow(s, version, listing) && StartsFrom(a, version, listing)
    ensures RunsFollow(P.Apply(env, s, a), version, listing)
  {
    hide P.Act;
    var s' := P.Apply(env, s, a);
    if !a.Start? && !a.Crash? && a.run in s.runs { ActKeepsJobs(env, s, a.run, a); }
    forall id | id in s'.runs ensures RunFollows(s'.runs[id], version, listing) {
      if id in s.runs { assert RunFollows(s.runs[id], version, listing); }
    }
  }

  lemma UnderVersioned(version: string, key: string)
    requires VersionPrefix(version) <= key
    ensures Versioned(key)
  {
    assert key[..|RELEASES|] == VersionPrefix(version)[..|RELEASES|] == RELEASES;
  }

  /** A new object is all there is to check. */
  lemma PutPartial(env: Env, store: Store, version: string, listing: seq<Asset>, key: string, found: Object)
    requires Partial(env, store, version, listing)
    requires VersionPrefix(version) <= key ==> OnTarget(env, store[key := found], version, listing, key)
    ensures Partial(env, store[key := found], version, listing)
  {
    var after := store[key := found];
    forall k | k in after && VersionPrefix(version) <= k ensures OnTarget(env, after, version, listing, k) {
      if k != key { assert OnTarget(env, store, version, listing, k); }
    }
  }

  lemma UploadPartial(env: Env, store: Store, r: P.Run, x: Asset, file: Bytes, version: string, listing: seq<Asset>)
    requires TagVersion(version) && TagVersion(r.version) && x in r.assets
    requires Partial(env, store, version, listing) && RunFollows(r, version, listing)
    requires Validates(env, x, file)
    ensures Partial(env, PutNew(store, AssetKey(r.version, x.name), file, x.sha256), version, listing)
  {
    var key := AssetKey(r.version, x.name);
    if key !in store {
      if VersionPrefix(version) <= key {
        VersionPlain(version);
        VersionPlain(r.version);
        PrefixInjective(r.version, x.name, version);
        assert x in listing;
      }
      PutPartial(env, store, version, listing, key, Object(file, x.sha256));
    }
  }

  lemma MetadataPartial(env: Env, store: Store, r: P.Run, version: string, listing: seq<Asset>)
    requires TagVersion(version) && TagVersion(r.version) && r.finalize
    requires Partial(env, store, version, listing) && RunFollows(r, version, listing)
    ensures var m := P.Metadata(env, r);
            Partial(env, PutNew(store, MetadataKey(r.version), m, env.sha(m)), version, listing)
  {
    var key := MetadataKey(r.version);
    var m := P.Metadata(env, r);
    if key !in store {
      if VersionPrefix(version) <= key {
        VersionPlain(version);
        VersionPlain(r.version);
        PrefixInjective(r.version, METADATA, version);
      }
      PutPartial(env, store, version, listing, key, Object(m, env.sha(m)));
    }
  }

  lemma MutablePartial(env: Env, store: Store, version: string, listing: seq<Asset>, key: string, bytes: Bytes,
                       sha256: string)
    requires Partial(env, store, version, listing) && !Versioned(key)
    ensures Partial(env, Put(store, key, bytes, sha256), version, listing)
  {
    if VersionPrefix(version) <= key { UnderVersioned(version, key); }
    PutPartial(env, store, version, listing, key, Object(bytes, sha256));
  }

  lemma PartialStep(env: Env, s: P.State, a: P.Action, version: string, listing: seq<Asset>)
    requires TagVersion(version) && S.Inv(env, s)
    requires Partial(env, s.store, version, listing) && RunsFollow(s, version, listing)
    ensures Partial(env, P.Apply(env, s, a).store, version, listing)
  {
    hide S.Inv, Partial;
    if !a.Start? && a.run in s.runs {
      S.InvParts(env, s, a.run);
      var r := s.runs[a.run];
      assert RunFollows(r, version, listing);
      match a
      case Upload(_, i, file) =>
        if i < |r.assets| && Validates(env, r.assets[i], file) {
          UploadPartial(env, s.store, r, r.assets[i], file, version, listing);
        }
      case PutMetadata(_) =>
        if r.phase.MetadataPut? { MetadataPartial(env, s.store, r, version, listing); }
      case PutAlias(_, file) =>
        if r.phase.AliasPut? && r.phase.i < |INSTALLERS| && HasInstallers(r.assets) {
          var name := INSTALLERS[r.phase.i];
          AliasKeyMutable(name);
          MutablePartial(env, s.store, version, listing, AliasKey(name), file, Named(r.assets, name).value.sha256);
        }
      case PutChannel(_) =>
        if r.phase.ChannelPut? && r.phase.i < |P.ChannelsOf(r)| {
          var m := P.Metadata(env, r);
          ChannelKeyMutable(P.ChannelsOf(r)[r.phase.i]);
          MutablePartial(env, s.store, version, listing, ChannelKey(P.ChannelsOf(r)[r.phase.i]), m, env.sha(m));
        }
      case _ =>
    }
  }

  lemma {:induction false} ReachesPartial(env: Env, actions: seq<P.Action>, version: string, listing: seq<Asset>)
    requires CollisionFree(env) && TagVersion(version) && SameListing(actions, version, listing)
    ensures Partial(env, P.Exec(env, actions).store, version, listing)
    ensures RunsFollow(P.Exec(env, actions), version, listing)
  {
    hide P.Apply, S.Inv;
    if actions != [] {
      var front := actions[..|actions| - 1];
      assert SameListing(front, version, listing);
      ReachesPartial(env, front, version, listing);
      S.Reachable(env, front);
      PartialStep(env, P.Exec(env, front), actions[|actions| - 1], version, listing);
      RunsFollowStep(env, P.Exec(env, front), actions[|actions| - 1], version, listing);
    }
  }

  /** The keys a complete release has under its prefix. */
  ghost predicate TargetKey(version: string, listing: seq<Asset>, key: string) {
    key == MetadataKey(version) || exists a :: a in listing && key == AssetKey(version, a.name)
  }

  function TargetObject(env: Env, github: Files, version: string, listing: seq<Asset>, key: string): Object
    requires key != MetadataKey(version) ==>
               VersionPrefix(version) <= key && key[|VersionPrefix(version)|..] in github
  {
    if key == MetadataKey(version)
    then Object(env.render(version, listing), env.sha(env.render(version, listing)))
    else ObjectAt(env, version, github, key)
  }

  lemma NamesApart(version: string, a: Asset, listing: seq<Asset>)
    requires ValidAssets(listing) && a in listing
    ensures AssetKey(version, a.name) != MetadataKey(version)
    ensures forall b :: b in listing && AssetKey(version, b.name) == AssetKey(version, a.name) ==> b == a
  {
    NameOfKey(version, a.name);
    NameOfKey(version, METADATA);
    forall b | b in listing && AssetKey(version, b.name) == AssetKey(version, a.name) ensures b == a {
      NameOfKey(version, b.name);
      DistinctNames(listing, a, b);
    }
  }

  /** What a partial release has of an asset is that asset. */
  lemma AssetOnTarget(env: Env, store: Store, version: string, listing: seq<Asset>, a: Asset)
    requires Partial(env, store, version, listing) && ValidAssets(listing) && a in listing
    ensures Compatible(store, version, a)
  {
    var k := AssetKey(version, a.name);
    if k in store {
      AssetKeyVersioned(version, a.name);
      NamesApart(version, a, listing);
      assert OnTarget(env, store, version, listing, k);
    }
  }

  lemma MetadataOnTarget(env: Env, store: Store, version: string, listing: seq<Asset>)
    requires Partial(env, store, version, listing) && ValidAssets(listing) && Truthful(env, store)
    requires MetadataKey(version) in store
    ensures var m := env.render(version, listing); store[MetadataKey(version)] == Object(m, env.sha(m))
  {
    AssetKeyVersioned(version, METADATA);
    assert OnTarget(env, store, version, listing, MetadataKey(version));
    forall a | a in listing ensures AssetKey(version, a.name) != MetadataKey(version) {
      NamesApart(version, a, listing);
    }
  }

  /** The object of an asset in a partial release is the one GitHub would give. */
  lemma AssetObject(env: Env, store: Store, github: Files, version: string, listing: seq<Asset>, a: Asset)
    requires CollisionFree(env) && Truthful(env, store)
    requires Partial(env, store, version, listing) && ValidAssets(listing) && a in listing && Sound(env, github, a)
    ensures AssetKey(version, a.name) in store ==>
              store[AssetKey(version, a.name)] == Object(github[a.name], a.sha256)
  {
    AssetOnTarget(env, store, version, listing, a);
  }

  /** Key by key, what publishing makes of a partial release. */
  lemma PublishedAt(env: Env, store: Store, github: Files, version: string, listing: seq<Asset>, key: string)
    requires CollisionFree(env) && Truthful(env, store) && Partial(env, store, version, listing)
    requires ValidAssets(listing) && AllSound(env, github, listing) && VersionPrefix(version) <= key
    ensures var after := Published(env, store, github, version, listing);
            && (key in after <==> TargetKey(version, listing, key))
            && (key in after ==>
                  && (key != MetadataKey(version) ==> key[|VersionPrefix(version)|..] in github)
                  && after[key] == TargetObject(env, github, version, listing, key))
  {
    var missing := Absent(store, version, listing);
    UploadAllAt(env, store, version, missing, github, key);
    MetadataUntouched(env, store, version, listing, missing, github);
    if key in store { assert OnTarget(env, store, version, listing, key); }
    if key == MetadataKey(version) {
      if key in store { MetadataOnTarget(env, store, version, listing); }
    } else if a :| a in listing && key == AssetKey(version, a.name) {
      NameOfKey(version, a.name);
      AssetObject(env, store, github, version, listing, a);
      assert key !in store ==> a in missing;
    }
  }

  /** A retry of a partial release succeeds. */
  lemma RetrySucceeds(env: Env, store: Store, github: Files, version: string, listing: seq<Asset>, prerelease: bool)
    requires CollisionFree(env) && Truthful(env, store) && Partial(env, store, version, listing)
    requires ValidAssets(listing) && AllSound(env, github, listing) && (prerelease || HasInstallers(listing))
    ensures CanFinalize(env, store, github, version, listing, prerelease)
  {
    forall a | a in listing ensures Compatible(store, version, a) {
      AssetOnTarget(env, store, version, listing, a);
    }
    if MetadataKey(version) in store { MetadataOnTarget(env, store, version, listing); }
  }

  /** Aliases and channels are not under the versioned prefix. */
  lemma FinalizedVersioned(env: Env, store: Store, github: Files, version: string, assets: seq<Asset>,
                           makeLatest: bool, prerelease: bool, key: string)
    requires (!prerelease ==> InstallersSound(env, github, assets)) && Versioned(key)
    ensures var after := Finalized(env, store, github, version, assets, makeLatest, prerelease);
            var published := Published(env, store, github, version, assets);
            (key in after <==> key in published) && (key in after ==> after[key] == published[key])
  {
    AliasKeyMutable(INSTALLERS[0]);
    AliasKeyMutable(INSTALLERS[1]);
    ChannelKeyMutable("latest");
    ChannelKeyMutable("prerelease");
    var published := Published(env, store, github, version, assets);
    if !prerelease {
      InstallersOnGithub(env, github, assets);
      AliasedElsewhere(published, github, assets, |INSTALLERS|, key);
    }
    var m := env.render(version, assets);
    var aliased := if prerelease then published else Aliased(published, github, assets, |INSTALLERS|);
    MovedElsewhere(aliased, Channels(makeLatest, prerelease), m, env.sha(m), key);
  }

  lemma {:induction false} AliasedElsewhere(store: Store, github: Files, assets: seq<Asset>, n: nat, key: string)
    requires n <= |INSTALLERS| && HasInstallers(assets) && forall i :: 0 <= i < n ==> INSTALLERS[i] in github
    requires forall i :: 0 <= i < |INSTALLERS| ==> key != AliasKey(INSTALLERS[i])
    ensures var after := Aliased(store, github, assets, n);
            (key in after <==> key in store) && (key in after ==> after[key] == store[key])
  {
    if n > 0 { AliasedElsewhere(store, github, assets, n - 1, key); }
  }

  lemma {:induction false} MovedElsewhere(store: Store, channels: seq<string>, bytes: Bytes, sha256: string, key: string)
    requires forall i :: 0 <= i < |channels| ==> key != ChannelKey(channels[i])
    ensures var after := Moved(store, channels, bytes, sha256);
            (key in after <==> key in store) && (key in after ==> after[key] == store[key])
  {
    if channels != [] { MovedElsewhere(store, channels[..|channels| - 1], bytes, sha256, key); }
  }

  /** Two buckets agree on everything under the release's prefix. */
  ghost predicate SamePrefix(version: string, x: Store, y: Store) {
    forall k :: VersionPrefix(version) <= k ==> (k in x <==> k in y) && (k in x ==> x[k] == y[k])
  }

  lemma RetryEndsAlike(env: Env, x: Store, y: Store, github: Files, version: string, listing: seq<Asset>,
                       makeLatest: bool, prerelease: bool)
    requires CollisionFree(env) && ValidAssets(listing) && AllSound(env, github, listing)
    requires Truthful(env, x) && Partial(env, x, version, listing)
    requires Truthful(env, y) && Partial(env, y, version, listing)
    requires !prerelease ==> InstallersSound(env, github, listing)
    ensures SamePrefix(version, Finalized(env, x, github, version, listing, makeLatest, prerelease),
                       Finalized(env, y, github, version, listing, makeLatest, prerelease))
  {
    var x' := Finalized(env, x, github, version, listing, makeLatest, prerelease);
    var y' := Finalized(env, y, github, version, listing, makeLatest, prerelease);
    forall k | VersionPrefix(version) <= k ensures (k in x' <==> k in y') && (k in x' ==> x'[k] == y'[k]) {
      UnderVersioned(version, k);
      FinalizedVersioned(env, x, github, version, listing, makeLatest, prerelease, k);
      FinalizedVersioned(env, y, github, version, listing, makeLatest, prerelease, k);
      PublishedAt(env, x, github, version, listing, k);
      PublishedAt(env, y, github, version, listing, k);
    }
  }

  /** Whatever runs of any releases did and wherever they stopped: if the runs of this release
      started from one listing, an undisturbed `finalize` run succeeds and leaves under the
      release's prefix exactly what a run on an empty bucket leaves. */
  lemma Recovery(env: Env, actions: seq<P.Action>, github: Files, version: string, listing: seq<Asset>,
                 makeLatest: bool, prerelease: bool)
    requires CollisionFree(env) && TagVersion(version) && ValidAssets(listing)
    requires SameListing(actions, version, listing)
    requires AllSound(env, github, listing) && (prerelease || HasInstallers(listing))
    ensures var store := P.Exec(env, actions).store;
            && CanFinalize(env, store, github, version, listing, prerelease)
            && SamePrefix(version, Finalized(env, store, github, version, listing, makeLatest, prerelease),
                          Finalized(env, map[], github, version, listing, makeLatest, prerelease))
  {
    hide CanFinalize, Finalized, P.Exec, SamePrefix;
    var store := P.Exec(env, actions).store;
    ReachesPartial(env, actions, version, listing);
    S.Reachable(env, actions);
    RetrySucceeds(env, store, github, version, listing, prerelease);
    RetryEndsAlike(env, store, map[], github, version, listing, makeLatest, prerelease);
  }
}
