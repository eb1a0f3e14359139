/** A `finalize` run that fails is one of the protocol's runs, too: the bucket it leaves is reached by steps
    of the machine. */
module ReleaseFailures {
  import opened Text
  import opened VersionGrammar
  import opened ReleaseKeys
  import opened ReleaseStore
  import opened P = ReleaseProtocol
  import opened ReleaseUploads
  import opened ReleasePublisher
  import opened ReleaseRefinement
  import F = ReleaseFinalize

  /** From asset `k` on, the statuses are those of the find. */
  ghost predicate Waiting(status: seq<Status>, store: Store, r: Run, k: nat) {
    |status| == |r.assets| && forall i :: k <= i < |status| ==> status[i] == FoundStatus(store, r.version, r.assets[i])
  }

  /** The next asset: uploaded and checked if it is missing and its file is sound, otherwise left alone. */
  lemma SoundNext(env: Env, s: State, from: State, id: nat, r: Run, store: Store, log: seq<Event>, github: Files,
                  k: nat, status: seq<Status>)
    returns (after: seq<Status>)
    requires k < |r.assets| && r.phase.Uploading? && r.finalize && ValidAssets(r.assets) && Waiting(status, store, r, k)
    requires Leads(env, from, With(s, id, r.(status := status), Stored(env, store, r, github, k), log))
    ensures Waiting(after, store, r, k + 1)
    ensures Leads(env, from, With(s, id, r.(status := after), Stored(env, store, r, github, k + 1), log))
  {
    hide Leads, UploadAll, Validates, Stored, With, ValidAssets;
    StoredNext(env, store, r, github, k);
    var a := r.assets[k];
    after := status;
    if AssetKey(r.version, a.name) !in store && Sound(env, github, a) {
      StillAbsent(env, store, r, github, k);
      UploadAndCheck(env, s, from, id, r, Stored(env, store, r, github, k), log, k, status, github[a.name]);
      after := status[k := Verified];
    }
  }

  lemma {:induction false} UploadSound(env: Env, s: State, from: State, id: nat, r: Run, store: Store, log: seq<Event>,
                                       github: Files, k: nat)
    returns (status: seq<Status>)
    requires k <= |r.assets| && r.phase.Uploading? && r.finalize && ValidAssets(r.assets)
    requires Leads(env, from, With(s, id, r.(status := Settled(store, r, 0)), Stored(env, store, r, github, 0), log))
    ensures Waiting(status, store, r, k)
    ensures Leads(env, from, With(s, id, r.(status := status), Stored(env, store, r, github, k), log))
  {
    hide Leads, Stored, With, ValidAssets;
    if k == 0 {
      status := Settled(store, r, 0);
    } else {
      var before := UploadSound(env, s, from, id, r, store, log, github, k - 1);
      status := SoundNext(env, s, from, id, r, store, log, github, k - 1, before);
    }
  }

  /** A run that has uploaded what it could, and goes no further. */
  lemma UploadsReached(env: Env, s: State, github: Files, version: string, assets: seq<Asset>, makeLatest: bool,
                       prerelease: bool)
    returns (end: State)
    requires TagVersion(version) && ValidAssets(assets) && AllCompatible(s.store, version, assets)
    ensures Leads(env, s, end)
    ensures end.store == UploadAll(env, s.store, version, F.Absent(s.store, version, assets), github)
  {
    hide Leads, TagVersion, ValidAssets, AllCompatible, AllSound, UploadAll, F.Absent;
    var base := s.(nextId := s.nextId + 1);
    var id := s.nextId;
    var r0 := Fresh(version, assets, makeLatest, prerelease);
    Started(env, s, version, assets, makeLatest, prerelease);
    ProbeAll(env, base, s, id, r0, s.store, s.log, |assets|);
    EndFind(env, base, s, id, r0, s.store, s.log);
    var r1 := r0.(phase := Uploading);
    assert Settled(s.store, r1, 0) == Settled(s.store, r0, 0);
    assert Stored(env, s.store, r1, github, 0) == s.store by { NothingStored(env, s.store, r1, github); }
    var status := UploadSound(env, base, s, id, r1, s.store, s.log, github, |assets|);
    assert assets[..|assets|] == assets;
    end := With(base, id, r1.(status := status), Stored(env, s.store, r1, github, |assets|), s.log);
  }

  /** A stable run that has published its metadata, and perhaps the first installer alias. */
  lemma InstallersReached(env: Env, s: State, github: Files, version: string, assets: seq<Asset>, makeLatest: bool)
    returns (end: State)
    requires TagVersion(version) && ValidAssets(assets) && AllCompatible(s.store, version, assets)
    requires AllSound(env, github, F.Absent(s.store, version, assets))
    requires var m := env.render(version, assets);
             MetadataKey(version) in s.store ==> Holds(s.store, MetadataKey(version), |m|, env.sha(m))
    ensures Leads(env, s, end)
    ensures var published := F.Published(env, s.store, github, version, assets);
            end.store == if F.FirstInstallerSound(env, github, assets) then F.Aliased(published, github, assets, 1)
                         else published
  {
    hide Leads, TagVersion, AllCompatible, AllSound, UploadAll, F.Absent, Holds, HasInstallers;
    var base, id := s.(nextId := s.nextId + 1), s.nextId;
    var m := env.render(version, assets);
    var missing := F.Absent(s.store, version, assets);
    var r := MirrorRun(env, s, github, version, assets, makeLatest, false);
    F.MetadataUntouched(env, s.store, version, assets, missing, github);
    var store1 := UploadAll(env, s.store, version, missing, github);
    MetadataAfter(s.store, store1, version, |m|, env.sha(m));
    MetadataStage(env, base, s, id, r, store1, s.log);
    var published := F.Published(env, s.store, github, version, assets);
    var r1 := r.(phase := AliasPut(0));
    end := With(base, id, r1, published, s.log);
    if F.FirstInstallerSound(env, github, assets) { end := FirstAlias(env, base, s, id, r1, published, s.log, github); }
  }

  lemma FirstAlias(env: Env, s: State, from: State, id: nat, r: Run, store: Store, log: seq<Event>, github: Files)
    returns (end: State)
    requires r.phase == AliasPut(0) && F.FirstInstallerSound(env, github, r.assets)
    requires Leads(env, from, With(s, id, r, store, log))
    ensures Leads(env, from, end) && end.store == F.Aliased(store, github, r.assets, 1)
  {
    hide Leads;
    AliasStage(env, s, from, id, r, store, log, 0, github[INSTALLERS[0]]);
    var x := Named(r.assets, INSTALLERS[0]).value;
    end := With(s, id, r.(phase := AliasPut(1)), Put(store, AliasKey(INSTALLERS[0]), github[INSTALLERS[0]], x.sha256),
                log + [AliasVerified(id, INSTALLERS[0])]);
    assert F.Aliased(store, github, r.assets, 0) == store;
  }

  /** Wherever the protocol stands: if a `finalize` run cannot succeed, some steps of a new run lead to the
      bucket in which the script's own execution fails. */
  lemma FailureIsARun(env: Env, s: State, github: Files, version: string, assets: seq<Asset>, makeLatest: bool,
                      prerelease: bool)
    returns (end: State)
    requires TagVersion(version) && ValidAssets(assets)
    requires !F.CanFinalize(env, s.store, github, version, assets, prerelease)
    ensures Leads(env, s, end)
    ensures end.store == F.Failed(env, s.store, github, version, assets, prerelease)
  {
    hide Leads, TagVersion, ValidAssets, AllCompatible, AllSound, UploadAll, F.Absent, F.Aliased, F.Downloadable;
    hide F.FirstInstallerSound, F.Published, F.InstallersSound;
    var missing := F.Absent(s.store, version, assets);
    var m := env.render(version, assets);
    if !AllCompatible(s.store, version, assets) || !F.Downloadable(s.store, github, version, assets, prerelease) {
      Stays(env, s);
      end := s;
    } else if !AllSound(env, github, missing)
              || (MetadataKey(version) in s.store && !Holds(s.store, MetadataKey(version), |m|, env.sha(m))) {
      end := UploadsReached(env, s, github, version, assets, makeLatest, prerelease);
    } else {
      end := InstallersReached(env, s, github, version, assets, makeLatest);
    }
  }

  /** What a `finalize` run leaves, whether it succeeds or not. */
  ghost function Left(env: Env, store: Store, github: Files, version: string, assets: seq<Asset>, makeLatest: bool,
                      prerelease: bool): Store {
    if F.CanFinalize(env, store, github, version, assets, prerelease)
    then F.Finalized(env, store, github, version, assets, makeLatest, prerelease)
    else F.Failed(env, store, github, version, assets, prerelease)
  }

  /** So every `finalize` run takes a reachable bucket to a reachable one. */
  lemma LeftReachable(env: Env, actions: seq<Action>, github: Files, version: string, assets: seq<Asset>,
                      makeLatest: bool, prerelease: bool)
    requires TagVersion(version) && ValidAssets(assets)
    ensures exists more ::
              Exec(env, actions + more).store
              == Left(env, Exec(env, actions).store, github, version, assets, makeLatest, prerelease)
  {
    hide F.CanFinalize, F.Finalized, F.Failed, TagVersion, ValidAssets, Exec, ExecFrom;
    var s := Exec(env, actions);
    var end := s;
    if F.CanFinalize(env, s.store, github, version, assets, prerelease) {
      end := FinalizeIsARun(env, s, github, version, assets, makeLatest, prerelease);
    } else {
      end := FailureIsARun(env, s, github, version, assets, makeLatest, prerelease);
    }
    var more :| ExecFrom(env, s, more) == end;
    ExecSplits(env, actions, more);
  }

  // --- the other stage, crashes and failures ---

  /** Uploading asset `k` of an `assets` run if its file is sound. */
  lemma AssetNext(env: Env, s: State, from: State, id: nat, r: Run, store: Store, log: seq<Event>, github: Files,
                  k: nat, status: seq<Status>)
    returns (after: seq<Status>)
    requires k < |r.assets| && r.phase.Uploading? && |status| == |r.assets| && forall i :: k <= i < |status| ==> status[i] == Missing
    requires Leads(env, from, With(s, id, r.(status := status),
                                   UploadAll(env, store, r.version, r.assets[..k], github), log))
    ensures |after| == |r.assets| && forall i :: k + 1 <= i < |after| ==> after[i] == Missing
    ensures Leads(env, from, With(s, id, r.(status := after),
                                  UploadAll(env, store, r.version, r.assets[..k + 1], github), log))
  {
    hide Leads, UploadAll, Validates, With;
    var a := r.assets[k];
    var before := UploadAll(env, store, r.version, r.assets[..k], github);
    assert r.assets[..k + 1] == r.assets[..k] + [a];
    UploadSnoc(env, store, r.version, r.assets[..k], a, github);
    after := status;
    if Sound(env, github, a) {
      after := status[k := Uploaded];
      UploadAct(env, s, id, r, before, log, k, status, github[a.name]);
      OneStep(env, from, With(s, id, r.(status := status), before, log), Upload(id, k, github[a.name]),
              With(s, id, r.(status := after), PutNew(before, AssetKey(r.version, a.name), github[a.name], a.sha256), log));
    }
  }

  lemma {:induction false} AssetsUploaded(env: Env, s: State, from: State, id: nat, r: Run, store: Store,
                                          log: seq<Event>, github: Files, k: nat)
    returns (status: seq<Status>)
    requires k <= |r.assets| && r.phase.Uploading? && r.status == seq(|r.assets|, i => Missing)
    requires Leads(env, from, With(s, id, r, store, log))
    ensures |status| == |r.assets| && forall i :: k <= i < |status| ==> status[i] == Missing
    ensures Leads(env, from, With(s, id, r.(status := status),
                                  UploadAll(env, store, r.version, r.assets[..k], github), log))
  {
    hide Leads, With;
    if k == 0 {
      status := r.status;
      assert r.(status := status) == r && r.assets[..0] == [];
    } else {
      var before := AssetsUploaded(env, s, from, id, r, store, log, github, k - 1);
      status := AssetNext(env, s, from, id, r, store, log, github, k - 1, before);
    }
  }

  /** An `assets` stage that gets to its uploads, whether all of its files are sound or not: some steps of the
      machine lead to the bucket that it leaves. */
  lemma AssetsIsARun(env: Env, s: State, github: Files, version: string, assets: seq<Asset>)
    returns (end: State)
    requires TagVersion(version) && assets != []
    ensures Leads(env, s, end) && end.store == UploadAll(env, s.store, version, assets, github)
  {
    hide Leads, TagVersion, UploadAll;
    var base, id := s.(nextId := s.nextId + 1), s.nextId;
    var r := Run(version, false, false, false, assets, seq(|assets|, i => Missing), Uploading);
    Stays(env, s);
    OneStep(env, s, s, Start(version, false, false, false, assets), With(base, id, r, s.store, s.log));
    var status := AssetsUploaded(env, base, s, id, r, s.store, s.log, github, |assets|);
    assert assets[..|assets|] == assets;
    end := With(base, id, r.(status := status), UploadAll(env, s.store, version, assets, github), s.log);
  }

  /** A run that has crashed never takes part again. */
  lemma {:induction false} CrashIsFinal(env: Env, s: State, id: nat, later: seq<Action>)
    requires id < s.nextId
    ensures id !in ExecFrom(env, Apply(env, s, Crash(id)), later).runs
    ensures ExecFrom(env, Apply(env, s, Crash(id)), later).nextId >= s.nextId
    ensures Apply(env, s, Crash(id)).store == s.store
  {
    hide Act;
    if later != [] {
      var front, last := later[..|later| - 1], later[|later| - 1];
      CrashIsFinal(env, s, id, front);
      var before := ExecFrom(env, Apply(env, s, Crash(id)), front);
      if !last.Start? && !last.Crash? && last.run in before.runs { ActKeepsRuns(env, before, last); }
    }
  }

  lemma ActKeepsRuns(env: Env, s: State, a: Action)
    requires !a.Start? && !a.Crash? && a.run in s.runs
    ensures var s' := Act(env, s, a.run, s.runs[a.run], a);
            s'.runs.Keys == s.runs.Keys && s'.nextId == s.nextId
  {}

  /** A run that has failed stays failed, and nothing but uploads of its assets that are already under way can
      follow. */
  lemma FailureIsFinal(env: Env, s: State, a: Action)
    requires !a.Start? && !a.Crash? && a.run in s.runs && s.runs[a.run].phase.Failed?
    ensures var s' := Apply(env, s, a);
            var r := s.runs[a.run];
            && a.run in s'.runs && s'.runs[a.run].phase == r.phase
            && (s'.store == s.store
                || (r.phase == P.Failed(true) && a.Upload?
                    && exists i, file :: 0 <= i < |r.assets| && r.assets[i].sha256 == env.sha(file)
                         && s'.store == PutNew(s.store, AssetKey(r.version, r.assets[i].name), file, r.assets[i].sha256)))
  {}
}
