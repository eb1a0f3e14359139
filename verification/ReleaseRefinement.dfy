/** The undisturbed `finalize` run is one of the protocol's runs: what is proved of every reachable
    state holds of what it leaves. */
module ReleaseRefinement {
  import opened Text
  import opened VersionGrammar
  import opened ReleaseKeys
  import opened ReleaseStore
  import opened P = ReleaseProtocol
  import opened ReleaseUploads
  import opened ReleasePublisher
  import F = ReleaseFinalize

  /** More steps from a state. */
  ghost function ExecFrom(env: Env, s: State, actions: seq<Action>): State {
    if actions == [] then s
    else Apply(env, ExecFrom(env, s, actions[..|actions| - 1]), actions[|actions| - 1])
  }

  lemma {:induction false} ExecSplits(env: Env, before: seq<Action>, after: seq<Action>)
    ensures ExecFrom(env, Exec(env, before), after) == Exec(env, before + after)
  {
    hide Apply;
    if after == [] {
      assert before + after == before;
    } else {
      assert (before + after)[..|before + after| - 1] == before + after[..|after| - 1];
      ExecSplits(env, before, after[..|after| - 1]);
    }
  }

  lemma {:induction false} ExecTwice(env: Env, s: State, a: seq<Action>, b: seq<Action>)
    ensures ExecFrom(env, ExecFrom(env, s, a), b) == ExecFrom(env, s, a + b)
  {
    hide Apply;
    if b == [] {
      assert a + b == a;
    } else {
      assert (a + b)[..|a + b| - 1] == a + b[..|b| - 1];
      ExecTwice(env, s, a, b[..|b| - 1]);
    }
  }

  /** Some steps lead from one state to the other. */
  ghost predicate Leads(env: Env, s: State, s': State) {
    exists actions :: ExecFrom(env, s, actions) == s'
  }

  lemma Stays(env: Env, s: State)
    ensures Leads(env, s, s)
  {
    assert ExecFrom(env, s, []) == s;
  }

  lemma OneStep(env: Env, s: State, m: State, a: Action, s': State)
    requires Leads(env, s, m) && s' == Apply(env, m, a)
    ensures Leads(env, s, s')
  {
    hide Apply;
    var actions :| ExecFrom(env, s, actions) == m;
    assert (actions + [a])[..|actions|] == actions;
    assert ExecFrom(env, s, actions + [a]) == s';
  }

  // --- one run among others ---

  /** What the other runs do not see: the state in which only this run has moved. */
  function With(s: State, id: nat, r: Run, store: Store, log: seq<Event>): State {
    s.(store := store, runs := s.runs[id := r], log := log)
  }

  /** The status of an asset after the find. */
  function FoundStatus(store: Store, version: string, a: Asset): Status {
    if AssetKey(version, a.name) in store then Verified else Missing
  }

  /** The first `k` assets are probed. */
  function Probed(store: Store, r: Run, k: nat): seq<Status> {
    seq(|r.assets|, i requires 0 <= i < |r.assets| =>
      if i < k then FoundStatus(store, r.version, r.assets[i]) else Unknown)
  }

  /** The first `k` assets are verified, the others as found. */
  function Settled(store: Store, r: Run, k: nat): (status: seq<Status>)
    ensures |status| == |r.assets|
  {
    seq(|r.assets|, i requires 0 <= i < |r.assets| =>
      if i < k then Verified else FoundStatus(store, r.version, r.assets[i]))
  }

  lemma ProbeOne(env: Env, s: State, id: nat, r: Run, store: Store, log: seq<Event>, k: nat)
    requires k < |r.assets| && r.phase.Finding?
    requires Compatible(store, r.version, r.assets[k])
    ensures Apply(env, With(s, id, r.(status := Probed(store, r, k)), store, log), Probe(id, k))
         == With(s, id, r.(status := Probed(store, r, k + 1)), store, log)
  {
    var before, after := Probed(store, r, k), Probed(store, r, k + 1);
    assert before[k := FoundStatus(store, r.version, r.assets[k])] == after;
    var r0 := r.(status := before);
    var s0 := With(s, id, r0, store, log);
    assert s0.runs[id] == r0;
    assert Mark(s0, id, k, FoundStatus(store, r.version, r.assets[k])) == With(s, id, r.(status := after), store, log) by {
      assert s0.runs[id := r.(status := after)] == s.runs[id := r.(status := after)];
    }
  }

  lemma {:induction false} ProbeAll(env: Env, s: State, from: State, id: nat, r: Run, store: Store, log: seq<Event>, k: nat)
    requires k <= |r.assets| && r.phase.Finding? && AllCompatible(store, r.version, r.assets)
    requires Leads(env, from, With(s, id, r.(status := Probed(store, r, 0)), store, log))
    ensures Leads(env, from, With(s, id, r.(status := Probed(store, r, k)), store, log))
  {
    if k > 0 {
      ProbeAll(env, s, from, id, r, store, log, k - 1);
      assert r.assets[k - 1] in r.assets;
      ProbeOne(env, s, id, r, store, log, k - 1);
      OneStep(env, from, With(s, id, r.(status := Probed(store, r, k - 1)), store, log), Probe(id, k - 1),
              With(s, id, r.(status := Probed(store, r, k)), store, log));
    }
  }

  lemma {:induction false} AbsentSnoc(store: Store, version: string, xs: seq<Asset>, a: Asset)
    ensures F.Absent(store, version, xs + [a])
         == F.Absent(store, version, xs) + if AssetKey(version, a.name) in store then [] else [a]
  {
    if xs == [] {
      assert xs + [a] == [a] && [a][1..] == [];
    } else {
      assert (xs + [a])[1..] == xs[1..] + [a];
      AbsentSnoc(store, version, xs[1..], a);
    }
  }

  /** The store after the first `k` assets. */
  function Stored(env: Env, store: Store, r: Run, github: Files, k: nat): Store
    requires k <= |r.assets|
  {
    UploadAll(env, store, r.version, F.Absent(store, r.version, r.assets[..k]), github)
  }

  lemma UploadSnoc(env: Env, store: Store, version: string, order: seq<Asset>, a: Asset, github: Files)
    ensures UploadAll(env, store, version, order + [a], github)
         == UploadOne(env, UploadAll(env, store, version, order, github), version, a, github)
  {
    hide UploadOne;
    assert (order + [a])[..|order|] == order;
  }

  lemma StoredNext(env: Env, store: Store, r: Run, github: Files, k: nat)
    requires k < |r.assets|
    ensures var a := r.assets[k];
            Stored(env, store, r, github, k + 1)
            == if AssetKey(r.version, a.name) in store then Stored(env, store, r, github, k)
               else UploadOne(env, Stored(env, store, r, github, k), r.version, a, github)
  {
    hide UploadAll, UploadOne, F.Absent, AssetKey;
    var a := r.assets[k];
    assert r.assets[..k + 1] == r.assets[..k] + [a];
    AbsentSnoc(store, r.version, r.assets[..k], a);
    var done := F.Absent(store, r.version, r.assets[..k]);
    assert done + [] == done;
    UploadSnoc(env, store, r.version, done, a, github);
  }

  /** An absent asset is still absent when its turn comes. */
  lemma StillAbsent(env: Env, store: Store, r: Run, github: Files, k: nat)
    requires k < |r.assets| && ValidAssets(r.assets) && AssetKey(r.version, r.assets[k].name) !in store
    ensures AssetKey(r.version, r.assets[k].name) !in Stored(env, store, r, github, k)
  {
    var key := AssetKey(r.version, r.assets[k].name);
    UploadAllAt(env, store, r.version, F.Absent(store, r.version, r.assets[..k]), github, key);
    NameOfKey(r.version, r.assets[k].name);
    forall a | a in r.assets[..k] ensures AssetKey(r.version, a.name) != key {
      NameOfKey(r.version, a.name);
    }
  }

  /** Upload and check of one missing asset. */
  lemma UploadAndCheck(env: Env, s: State, from: State, id: nat, r: Run, store: Store, log: seq<Event>, k: nat,
                       status: seq<Status>, file: Bytes)
    requires k < |r.assets| && r.phase.Uploading? && r.finalize && |status| == |r.assets| && status[k] == Missing
    requires Validates(env, r.assets[k], file)
    requires AssetKey(r.version, r.assets[k].name) !in store
    requires Leads(env, from, With(s, id, r.(status := status), store, log))
    ensures Leads(env, from, With(s, id, r.(status := status[k := Verified]),
                                  PutNew(store, AssetKey(r.version, r.assets[k].name), file, r.assets[k].sha256), log))
  {
    var x := r.assets[k];
    var store' := PutNew(store, AssetKey(r.version, x.name), file, x.sha256);
    var s0 := With(s, id, r.(status := status), store, log);
    var s1 := With(s, id, r.(status := status[k := Uploaded]), store', log);
    var s2 := With(s, id, r.(status := status[k := Verified]), store', log);
    UploadAct(env, s, id, r, store, log, k, status, file);
    OneStep(env, from, s0, Upload(id, k, file), s1);
    CheckAct(env, s, id, r, store', log, k, status[k := Uploaded]);
    assert status[k := Uploaded][k := Verified] == status[k := Verified];
    OneStep(env, from, s1, Check(id, k), s2);
  }

  lemma UploadAct(env: Env, s: State, id: nat, r: Run, store: Store, log: seq<Event>, k: nat,
                  status: seq<Status>, file: Bytes)
    requires k < |r.assets| && r.phase.Uploading? && |status| == |r.assets| && status[k] == Missing
    requires Validates(env, r.assets[k], file)
    ensures Apply(env, With(s, id, r.(status := status), store, log), Upload(id, k, file))
         == With(s, id, r.(status := status[k := Uploaded]),
                 PutNew(store, AssetKey(r.version, r.assets[k].name), file, r.assets[k].sha256), log)
  {
    hide PutNew, Validates, AssetKey;
    var r0 := r.(status := status);
    var s0 := With(s, id, r0, store, log);
    assert s0.runs[id] == r0;
    assert s0.runs[id := r.(status := status[k := Uploaded])] == s.runs[id := r.(status := status[k := Uploaded])];
  }

  lemma CheckAct(env: Env, s: State, id: nat, r: Run, store: Store, log: seq<Event>, k: nat, status: seq<Status>)
    requires k < |r.assets| && r.phase.Uploading? && r.finalize && |status| == |r.assets| && status[k] == Uploaded
    requires AssetHolds(store, r.version, r.assets[k])
    ensures Apply(env, With(s, id, r.(status := status), store, log), Check(id, k))
         == With(s, id, r.(status := status[k := Verified]), store, log)
  {
    var r0 := r.(status := status);
    var s0 := With(s, id, r0, store, log);
    assert s0.runs[id] == r0;
    assert s0.runs[id := r.(status := status[k := Verified])] == s.runs[id := r.(status := status[k := Verified])];
  }

  lemma SettledNext(store: Store, r: Run, k: nat)
    requires k < |r.assets|
    ensures Settled(store, r, k)[k := Verified] == Settled(store, r, k + 1)
    ensures AssetKey(r.version, r.assets[k].name) in store ==> Settled(store, r, k + 1) == Settled(store, r, k)
    ensures AssetKey(r.version, r.assets[k].name) !in store ==> Settled(store, r, k)[k] == Missing
  {}

  lemma UploadNext(env: Env, s: State, from: State, id: nat, r: Run, store: Store, log: seq<Event>, github: Files, k: nat)
    requires k < |r.assets| && r.phase.Uploading? && r.finalize && ValidAssets(r.assets)
    requires AssetKey(r.version, r.assets[k].name) !in store ==> Sound(env, github, r.assets[k])
    requires Leads(env, from, With(s, id, r.(status := Settled(store, r, k)), Stored(env, store, r, github, k), log))
    ensures Leads(env, from,
                  With(s, id, r.(status := Settled(store, r, k + 1)), Stored(env, store, r, github, k + 1), log))
  {
    hide Leads, UploadAll, Validates, Settled, Stored, With, ValidAssets;
    StoredNext(env, store, r, github, k);
    SettledNext(store, r, k);
    var a := r.assets[k];
    if AssetKey(r.version, a.name) !in store {
      StillAbsent(env, store, r, github, k);
      UploadAndCheck(env, s, from, id, r, Stored(env, store, r, github, k), log, k, Settled(store, r, k),
                     github[a.name]);
    }
  }

  lemma AbsentSound(env: Env, store: Store, r: Run, github: Files, k: nat)
    requires k < |r.assets| && AllSound(env, github, F.Absent(store, r.version, r.assets))
    ensures AssetKey(r.version, r.assets[k].name) !in store ==> Sound(env, github, r.assets[k])
  {
    assert r.assets[k] in r.assets;
  }

  lemma {:induction false} UploadMissing(env: Env, s: State, from: State, id: nat, r: Run, store: Store,
                                         log: seq<Event>, github: Files, k: nat)
    requires k <= |r.assets| && r.phase.Uploading? && r.finalize && ValidAssets(r.assets)
    requires AllSound(env, github, F.Absent(store, r.version, r.assets))
    requires Leads(env, from, With(s, id, r.(status := Settled(store, r, 0)), Stored(env, store, r, github, 0), log))
    ensures Leads(env, from, With(s, id, r.(status := Settled(store, r, k)), Stored(env, store, r, github, k), log))
  {
    hide Leads, UploadAll, Sound, AllSound, F.Absent, Settled, Stored, With, ValidAssets, AssetKey;
    if k > 0 {
      UploadMissing(env, s, from, id, r, store, log, github, k - 1);
      AbsentSound(env, store, r, github, k - 1);
      UploadNext(env, s, from, id, r, store, log, github, k - 1);
    }
  }

  // --- the stages after the uploads ---

  /** A step that only changes the phase. */
  lemma MoveOn(env: Env, s: State, from: State, id: nat, r: Run, store: Store, log: seq<Event>, a: Action, phase: Phase)
    requires Leads(env, from, With(s, id, r, store, log))
    requires a.EndFinding? || a.EndUploading? || a.CheckMetadata? || a.CheckChannel? || a.PutChannel?
    requires a.run == id
    requires Act(env, With(s, id, r, store, log), id, r, a) == Advance(With(s, id, r, store, log), id, phase)
    ensures Leads(env, from, With(s, id, r.(phase := phase), store, log))
  {
    hide Act, Leads;
    var s0 := With(s, id, r, store, log);
    assert s0.runs[id := r.(phase := phase)] == s.runs[id := r.(phase := phase)];
    OneStep(env, from, s0, a, With(s, id, r.(phase := phase), store, log));
  }

  lemma MetadataStage(env: Env, s: State, from: State, id: nat, r: Run, store: Store, log: seq<Event>)
    requires r.phase.MetadataPut?
    requires Leads(env, from, With(s, id, r, store, log))
    requires var m := Metadata(env, r);
             MetadataKey(r.version) in store ==> Holds(store, MetadataKey(r.version), |m|, env.sha(m))
    ensures var m := Metadata(env, r);
            Leads(env, from, With(s, id, r.(phase := AfterMetadata(r)),
                                  PutNew(store, MetadataKey(r.version), m, env.sha(m)), log))
  {
    hide Leads;
    var m := Metadata(env, r);
    var store' := PutNew(store, MetadataKey(r.version), m, env.sha(m));
    var s0 := With(s, id, r, store, log);
    var r1 := r.(phase := MetadataCheck);
    assert s0.runs[id] == r && s0.runs[id := r1] == s.runs[id := r1];
    OneStep(env, from, s0, PutMetadata(id), With(s, id, r1, store', log));
    MoveOn(env, s, from, id, r1, store', log, CheckMetadata(id), AfterMetadata(r));
  }

  lemma AliasStage(env: Env, s: State, from: State, id: nat, r: Run, store: Store, log: seq<Event>, i: nat, file: Bytes)
    requires r.phase == AliasPut(i) && i < |INSTALLERS| && HasInstallers(r.assets)
    requires Validates(env, Named(r.assets, INSTALLERS[i]).value, file)
    requires Leads(env, from, With(s, id, r, store, log))
    ensures var x := Named(r.assets, INSTALLERS[i]).value;
            Leads(env, from, With(s, id, r.(phase := if i + 1 < |INSTALLERS| then AliasPut(i + 1) else ChannelPut(0)),
                                  Put(store, AliasKey(INSTALLERS[i]), file, x.sha256),
                                  log + [AliasVerified(id, INSTALLERS[i])]))
  {
    hide Leads;
    var x := Named(r.assets, INSTALLERS[i]).value;
    var store' := Put(store, AliasKey(INSTALLERS[i]), file, x.sha256);
    var log' := log + [AliasVerified(id, INSTALLERS[i])];
    var s0 := With(s, id, r, store, log);
    var r1 := r.(phase := AliasCheck(i));
    var r2 := r.(phase := if i + 1 < |INSTALLERS| then AliasPut(i + 1) else ChannelPut(0));
    assert s0.runs[id] == r && s0.runs[id := r1] == s.runs[id := r1];
    OneStep(env, from, s0, PutAlias(id, file), With(s, id, r1, store', log));
    var s1 := With(s, id, r1, store', log);
    assert s1.runs[id] == r1 && s1.runs[id := r2] == s.runs[id := r2];
    OneStep(env, from, s1, CheckAlias(id), With(s, id, r2, store', log'));
  }

  lemma ChannelStage(env: Env, s: State, from: State, id: nat, r: Run, store: Store, log: seq<Event>, i: nat)
    requires r.phase == ChannelPut(i) && i < |ChannelsOf(r)|
    requires Leads(env, from, With(s, id, r, store, log))
    ensures var m := Metadata(env, r);
            Leads(env, from, With(s, id, r.(phase := ChannelPut(i + 1)),
                                  Put(store, ChannelKey(ChannelsOf(r)[i]), m, env.sha(m)),
                                  log + [ChannelMoved(id, ChannelsOf(r)[i], r.prerelease)]))
  {
    hide Leads;
    var m := Metadata(env, r);
    var c := ChannelsOf(r)[i];
    var store' := Put(store, ChannelKey(c), m, env.sha(m));
    var log' := log + [ChannelMoved(id, c, r.prerelease)];
    var s0 := With(s, id, r, store, log);
    var r1 := r.(phase := ChannelCheck(i));
    assert s0.runs[id] == r && s0.runs[id := r1] == s.runs[id := r1];
    OneStep(env, from, s0, PutChannel(id), With(s, id, r1, store', log'));
    MoveOn(env, s, from, id, r1, store', log', CheckChannel(id), ChannelPut(i + 1));
  }

  // --- the whole run ---

  /** A fresh run as it is started. */
  function Fresh(version: string, assets: seq<Asset>, makeLatest: bool, prerelease: bool): Run {
    Run(version, true, makeLatest, prerelease, assets, seq(|assets|, i => Unknown), Finding)
  }

  /** Starting gives the run the next number. */
  lemma Started(env: Env, s: State, version: string, assets: seq<Asset>, makeLatest: bool, prerelease: bool)
    requires TagVersion(version) && ValidAssets(assets)
    ensures var r := Fresh(version, assets, makeLatest, prerelease);
            Leads(env, s, With(s.(nextId := s.nextId + 1), s.nextId, r.(status := Probed(s.store, r, 0)), s.store, s.log))
  {
    hide Leads, TagVersion;
    var r := Fresh(version, assets, makeLatest, prerelease);
    assert r.status == Probed(s.store, r, 0);
    Stays(env, s);
    OneStep(env, s, s, Start(version, true, makeLatest, prerelease, assets),
            With(s.(nextId := s.nextId + 1), s.nextId, r, s.store, s.log));
  }

  lemma EndFind(env: Env, s: State, from: State, id: nat, r: Run, store: Store, log: seq<Event>)
    requires r.phase.Finding?
    requires Leads(env, from, With(s, id, r.(status := Probed(store, r, |r.assets|)), store, log))
    ensures Leads(env, from, With(s, id, r.(status := Settled(store, r, 0), phase := Uploading), store, log))
  {
    hide Leads;
    assert Probed(store, r, |r.assets|) == Settled(store, r, 0);
    MoveOn(env, s, from, id, r.(status := Probed(store, r, |r.assets|)), store, log, EndFinding(id), Uploading);
  }

  lemma EndUpload(env: Env, s: State, from: State, id: nat, r: Run, store: Store, before: Store, log: seq<Event>)
    requires r.phase.Uploading? && r.finalize
    requires Leads(env, from, With(s, id, r.(status := Settled(before, r, |r.assets|)), store, log))
    ensures Leads(env, from, With(s, id, r.(status := Settled(before, r, |r.assets|), phase := MetadataPut), store, log))
  {
    hide Leads;
    MoveOn(env, s, from, id, r.(status := Settled(before, r, |r.assets|)), store, log, EndUploading(id), MetadataPut);
  }

  /** Find, upload and check all assets. */
  lemma MirrorRun(env: Env, s: State, github: Files, version: string, assets: seq<Asset>, makeLatest: bool, prerelease: bool)
    returns (r: Run)
    requires TagVersion(version) && ValidAssets(assets) && AllCompatible(s.store, version, assets)
    requires AllSound(env, github, F.Absent(s.store, version, assets))
    ensures r.version == version && r.assets == assets && r.makeLatest == makeLatest && r.prerelease == prerelease
    ensures r.phase == MetadataPut
    ensures Leads(env, s, With(s.(nextId := s.nextId + 1), s.nextId, r,
                               UploadAll(env, s.store, version, F.Absent(s.store, version, assets), github), s.log))
  {
    hide Leads, TagVersion, ValidAssets, AllCompatible, AllSound, UploadAll, F.Absent;
    var base := s.(nextId := s.nextId + 1);
    var id := s.nextId;
    var r0 := Fresh(version, assets, makeLatest, prerelease);
    Started(env, s, version, assets, makeLatest, prerelease);
    ProbeAll(env, base, s, id, r0, s.store, s.log, |assets|);
    EndFind(env, base, s, id, r0, s.store, s.log);
    var r1 := r0.(phase := Uploading);
    assert Settled(s.store, r1, 0) == Settled(s.store, r0, 0);
    assert Stored(env, s.store, r1, github, 0) == s.store by { NothingStored(env, s.store, r1, github); }
    UploadMissing(env, base, s, id, r1, s.store, s.log, github, |assets|);
    assert assets[..|assets|] == assets;
    EndUpload(env, base, s, id, r1, Stored(env, s.store, r1, github, |assets|), s.store, s.log);
    r := r1.(status := Settled(s.store, r1, |assets|), phase := MetadataPut);
  }

  lemma NothingStored(env: Env, store: Store, r: Run, github: Files)
    ensures Stored(env, store, r, github, 0) == store
  {
    assert r.assets[..0] == [];
  }

  /** The installer aliases of a stable run. */
  lemma AliasesRun(env: Env, s: State, from: State, id: nat, r: Run, store: Store, log: seq<Event>, github: Files)
    returns (log': seq<Event>)
    requires r.phase == AliasPut(0) && F.InstallersSound(env, github, r.assets)
    requires Leads(env, from, With(s, id, r, store, log))
    ensures forall i :: 0 <= i < |INSTALLERS| ==> INSTALLERS[i] in github
    ensures Leads(env, from, With(s, id, r.(phase := ChannelPut(0)),
                                  F.Aliased(store, github, r.assets, |INSTALLERS|), log'))
  {
    hide Leads, Validates;
    F.InstallersOnGithub(env, github, r.assets);
    assert |INSTALLERS| == 2;
    var a0, a1 := Named(r.assets, INSTALLERS[0]).value, Named(r.assets, INSTALLERS[1]).value;
    AliasStage(env, s, from, id, r, store, log, 0, github[INSTALLERS[0]]);
    var store1 := Put(store, AliasKey(INSTALLERS[0]), github[INSTALLERS[0]], a0.sha256);
    var log1 := log + [AliasVerified(id, INSTALLERS[0])];
    var r1 := r.(phase := AliasPut(1));
    AliasStage(env, s, from, id, r1, store1, log1, 1, github[INSTALLERS[1]]);
    log' := log1 + [AliasVerified(id, INSTALLERS[1])];
    TwoAliases(store, github, r.assets);
    assert r1.(phase := ChannelPut(0)) == r.(phase := ChannelPut(0));
  }

  lemma TwoAliases(store: Store, github: Files, assets: seq<Asset>)
    requires HasInstallers(assets) && forall i :: 0 <= i < |INSTALLERS| ==> INSTALLERS[i] in github
    ensures F.Aliased(store, github, assets, |INSTALLERS|)
         == Put(Put(store, AliasKey(INSTALLERS[0]), github[INSTALLERS[0]], Named(assets, INSTALLERS[0]).value.sha256),
                AliasKey(INSTALLERS[1]), github[INSTALLERS[1]], Named(assets, INSTALLERS[1]).value.sha256)
  {
    assert F.Aliased(store, github, assets, 0) == store;
    assert F.Aliased(store, github, assets, 1)
        == Put(store, AliasKey(INSTALLERS[0]), github[INSTALLERS[0]], Named(assets, INSTALLERS[0]).value.sha256);
  }

  /** The channels, and the end. */
  lemma {:induction false} ChannelsRun(env: Env, s: State, from: State, id: nat, r: Run, store: Store, log: seq<Event>, i: nat)
    returns (log': seq<Event>)
    requires i <= |ChannelsOf(r)| && r.phase == ChannelPut(0)
    requires Leads(env, from, With(s, id, r, store, log))
    ensures var m := Metadata(env, r);
            Leads(env, from, With(s, id, r.(phase := ChannelPut(i)),
                                  F.Moved(store, ChannelsOf(r)[..i], m, env.sha(m)), log'))
  {
    hide Leads, Metadata;
    var m := Metadata(env, r);
    if i == 0 {
      log' := log;
      assert r.(phase := ChannelPut(0)) == r;
    } else {
      var log1 := ChannelsRun(env, s, from, id, r, store, log, i - 1);
      var r1 := r.(phase := ChannelPut(i - 1));
      assert ChannelsOf(r1) == ChannelsOf(r) && Metadata(env, r1) == m by { SameMetadata(env, r, r1); }
      var front := ChannelsOf(r)[..i - 1];
      ChannelStage(env, s, from, id, r1, F.Moved(store, front, m, env.sha(m)), log1, i - 1);
      assert ChannelsOf(r)[..i][..i - 1] == front;
      log' := log1 + [ChannelMoved(id, ChannelsOf(r)[i - 1], r.prerelease)];
      assert r1.(phase := ChannelPut(i)) == r.(phase := ChannelPut(i));
    }
  }

  lemma SameMetadata(env: Env, r: Run, r': Run)
    requires r'.version == r.version && r'.assets == r.assets
    ensures Metadata(env, r') == Metadata(env, r)
  {}

  /** Wherever the protocol stands: if a `finalize` run can succeed, some steps of a new run lead to
      the bucket that the script's own execution leaves. */
  lemma FinalizeIsARun(env: Env, s: State, github: Files, version: string, assets: seq<Asset>,
                       makeLatest: bool, prerelease: bool)
    returns (end: State)
    requires TagVersion(version) && ValidAssets(assets)
    requires F.CanFinalize(env, s.store, github, version, assets, prerelease)
    ensures Leads(env, s, end)
    ensures end.store == F.Finalized(env, s.store, github, version, assets, makeLatest, prerelease)
  {
    hide Leads, TagVersion, AllCompatible, AllSound, UploadAll, F.Absent, F.Aliased, F.Moved, Holds, HasInstallers;
    var base, id := s.(nextId := s.nextId + 1), s.nextId;
    var m := env.render(version, assets);
    var missing := F.Absent(s.store, version, assets);
    var r := MirrorRun(env, s, github, version, assets, makeLatest, prerelease);
    F.MetadataUntouched(env, s.store, version, assets, missing, github);
    var store1 := UploadAll(env, s.store, version, missing, github);
    MetadataAfter(s.store, store1, version, |m|, env.sha(m));
    MetadataStage(env, base, s, id, r, store1, s.log);
    var published := F.Published(env, s.store, github, version, assets);
    var log, aliased := s.log, published;
    if !prerelease {
      log := AliasesRun(env, base, s, id, r.(phase := AliasPut(0)), published, s.log, github);
      aliased := F.Aliased(published, github, assets, |INSTALLERS|);
    }
    var r3 := r.(phase := ChannelPut(0));
    var n := |ChannelsOf(r3)|;
    log := ChannelsRun(env, base, s, id, r3, aliased, log, n);
    assert ChannelsOf(r3)[..n] == Channels(makeLatest, prerelease);
    end := With(base, id, r3.(phase := ChannelPut(n)),
                F.Moved(aliased, Channels(makeLatest, prerelease), m, env.sha(m)), log);
  }

  lemma MetadataAfter(before: Store, after: Store, version: string, size: nat, sha256: string)
    requires MetadataKey(version) in after <==> MetadataKey(version) in before
    requires MetadataKey(version) in before ==> after[MetadataKey(version)] == before[MetadataKey(version)]
    requires MetadataKey(version) in before ==> Holds(before, MetadataKey(version), size, sha256)
    ensures MetadataKey(version) in after ==> Holds(after, MetadataKey(version), size, sha256)
  {}
}
