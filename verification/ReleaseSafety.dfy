/** What every step of every run keeps, and what therefore holds in every reachable state. */
module ReleaseSafety {
  import opened Text
  import opened VersionGrammar
  import opened ReleaseKeys
  import opened ReleaseStore
  import opened ReleaseProtocol

  /** The run is past the verification of all its assets. */
  predicate AssetsDone(p: Phase) {
    p.MetadataPut? || p.MetadataCheck? || MetadataDone(p)
  }

  /** The run is past the verification of its metadata. */
  predicate MetadataDone(p: Phase) {
    p.AliasPut? || p.AliasCheck? || p.ChannelPut? || p.ChannelCheck?
  }

  ghost predicate AssetHeld(store: Store, r: Run, i: nat)
    requires i < |r.assets|
  {
    Holds(store, AssetKey(r.version, r.assets[i].name), r.assets[i].size, r.assets[i].sha256)
  }

  /** How many installer aliases the run has verified, by its phase. */
  function AliasesDone(p: Phase): nat {
    match p
    case AliasPut(i) => i
    case AliasCheck(i) => i
    case ChannelPut(_) => |INSTALLERS|
    case ChannelCheck(_) => |INSTALLERS|
    case _ => 0
  }

  ghost predicate RunOk(env: Env, store: Store, log: seq<Event>, id: nat, r: Run) {
    && TagVersion(r.version) && r.assets != [] && |r.status| == |r.assets|
    && (forall i :: 0 <= i < |r.assets| && r.status[i].Verified? ==> AssetHeld(store, r, i))
    && (AssetsDone(r.phase) ==> r.finalize && forall i :: 0 <= i < |r.assets| ==> AssetHeld(store, r, i))
    && (MetadataDone(r.phase) ==>
          Holds(store, MetadataKey(r.version), |Metadata(env, r)|, env.sha(Metadata(env, r))))
    && (!r.prerelease ==> forall j :: 0 <= j < AliasesDone(r.phase) && j < |INSTALLERS| ==>
          AliasVerified(id, INSTALLERS[j]) in log)
  }

  ghost predicate ChannelsBacked(env: Env, store: Store) {
    forall c :: ChannelKey(c) in store ==> Backed(env, store, store[ChannelKey(c)].bytes)
  }

  ghost predicate AliasesBacked(store: Store) {
    forall n :: n in INSTALLERS && AliasKey(n) in store ==> AliasBacked(store, n, store[AliasKey(n)].bytes)
  }

  /** A stable release moves a channel only after it has verified both installer aliases itself. */
  ghost predicate MoveFollows(log: seq<Event>, k: nat)
    requires k < |log|
  {
    log[k].ChannelMoved? && !log[k].prerelease ==>
      forall j :: 0 <= j < |INSTALLERS| ==> AliasVerified(log[k].run, INSTALLERS[j]) in log[..k]
  }

  ghost predicate RunsOk(env: Env, s: State) {
    forall id :: id in s.runs ==> id < s.nextId && RunOk(env, s.store, s.log, id, s.runs[id])
  }

  ghost predicate Inv(env: Env, s: State) {
    && Truthful(env, s.store)
    && RunsOk(env, s)
    && ChannelsBacked(env, s.store)
    && AliasesBacked(s.store)
    && forall k :: 0 <= k < |s.log| ==> MoveFollows(s.log, k)
  }

  /** Runs keep what they know when versioned objects are only added and the log only grows. */
  lemma RunKept(env: Env, before: Store, after: Store, log: seq<Event>, log': seq<Event>, id: nat, r: Run)
    requires RunOk(env, before, log, id, r) && Grows(before, after)
    requires forall e :: e in log ==> e in log'
    ensures RunOk(env, after, log', id, r)
  {
    forall i | 0 <= i < |r.assets| && AssetHeld(before, r, i) ensures AssetHeld(after, r, i) {
      HoldsGrows(before, after, r.version, r.assets[i].name, r.assets[i].size, r.assets[i].sha256);
    }
    var m := Metadata(env, r);
    if MetadataDone(r.phase) { HoldsGrows(before, after, r.version, METADATA, |m|, env.sha(m)); }
  }

  /** One run moves on, the store grows, the log grows: enough to look at that run. */
  lemma RunsKept(env: Env, s: State, s': State, id: nat)
    requires RunsOk(env, s) && id in s.runs
    requires s'.nextId == s.nextId && s'.runs.Keys == s.runs.Keys
    requires forall k :: k in s.runs && k != id ==> s'.runs[k] == s.runs[k]
    requires Grows(s.store, s'.store) && forall e :: e in s.log ==> e in s'.log
    requires RunOk(env, s'.store, s'.log, id, s'.runs[id])
    ensures RunsOk(env, s')
  {
    forall k | k in s'.runs ensures k < s'.nextId && RunOk(env, s'.store, s'.log, k, s'.runs[k]) {
      if k != id { RunKept(env, s.store, s'.store, s.log, s'.log, k, s.runs[k]); }
    }
  }

  /** Writing under the versioned prefix, only if nothing is there. */
  lemma PutNewKeeps(env: Env, store: Store, version: string, name: string, bytes: Bytes, sha256: string)
    requires Truthful(env, store) && ChannelsBacked(env, store) && AliasesBacked(store)
    requires env.sha(bytes) == sha256
    ensures var after := PutNew(store, AssetKey(version, name), bytes, sha256);
            && Truthful(env, after) && Grows(store, after)
            && ChannelsBacked(env, after) && AliasesBacked(after)
  {
    var after := PutNew(store, AssetKey(version, name), bytes, sha256);
    forall c | ChannelKey(c) in after ensures Backed(env, after, after[ChannelKey(c)].bytes) {
      KeysApart(version, name, c, INSTALLERS[0]);
      BackedGrows(env, store, after, store[ChannelKey(c)].bytes);
    }
    forall n | n in INSTALLERS && AliasKey(n) in after ensures AliasBacked(after, n, after[AliasKey(n)].bytes) {
      KeysApart(version, name, "", n);
      AliasBackedGrows(store, after, n, store[AliasKey(n)].bytes);
    }
  }

  lemma PutChannelKeeps(env: Env, store: Store, channel: string, bytes: Bytes)
    requires Truthful(env, store) && ChannelsBacked(env, store) && AliasesBacked(store)
    requires Backed(env, store, bytes)
    ensures var after := Put(store, ChannelKey(channel), bytes, env.sha(bytes));
            && Truthful(env, after) && Grows(store, after)
            && ChannelsBacked(env, after) && AliasesBacked(after)
  {
    var after := Put(store, ChannelKey(channel), bytes, env.sha(bytes));
    ChannelKeyMutable(channel);
    assert Grows(store, after);
    forall c | ChannelKey(c) in after ensures Backed(env, after, after[ChannelKey(c)].bytes) {
      BackedGrows(env, store, after, after[ChannelKey(c)].bytes);
    }
    forall n | n in INSTALLERS && AliasKey(n) in after ensures AliasBacked(after, n, after[AliasKey(n)].bytes) {
      KeysApart("", "", channel, n);
      AliasBackedGrows(store, after, n, store[AliasKey(n)].bytes);
    }
  }

  lemma PutAliasKeeps(env: Env, store: Store, name: string, bytes: Bytes)
    requires Truthful(env, store) && ChannelsBacked(env, store) && AliasesBacked(store)
    requires name in INSTALLERS && AliasBacked(store, name, bytes)
    ensures var after := Put(store, AliasKey(name), bytes, env.sha(bytes));
            && Truthful(env, after) && Grows(store, after)
            && ChannelsBacked(env, after) && AliasesBacked(after)
  {
    var after := Put(store, AliasKey(name), bytes, env.sha(bytes));
    AliasKeyMutable(name);
    assert Grows(store, after);
    forall c | ChannelKey(c) in after ensures Backed(env, after, after[ChannelKey(c)].bytes) {
      KeysApart("", "", c, name);
      BackedGrows(env, store, after, store[ChannelKey(c)].bytes);
    }
    forall n | n in INSTALLERS && AliasKey(n) in after ensures AliasBacked(after, n, after[AliasKey(n)].bytes) {
      if n == name {
        AliasBackedGrows(store, after, n, bytes);
      } else {
        assert AliasKey(n) != AliasKey(name) by { assert AliasKey(n)[|ROOT|..] == n && AliasKey(name)[|ROOT|..] == name; }
        AliasBackedGrows(store, after, n, store[AliasKey(n)].bytes);
      }
    }
  }

  /** A run past its metadata check has published everything its metadata lists. */
  lemma RunComplete(env: Env, store: Store, log: seq<Event>, id: nat, r: Run)
    requires CollisionFree(env) && Truthful(env, store)
    requires RunOk(env, store, log, id, r) && MetadataDone(r.phase)
    ensures Complete(env, store, r.version, r.assets) && Backed(env, store, Metadata(env, r))
  {
    var m := Metadata(env, r);
    HeaderSuffices(env, store, MetadataKey(r.version), m);
    forall i | 0 <= i < |r.assets|
      ensures Holds(store, AssetKey(r.version, r.assets[i].name), r.assets[i].size, r.assets[i].sha256)
    {
      assert AssetHeld(store, r, i);
    }
  }

  /** The file a run puts under an installer alias is the stored asset of its version. */
  lemma InstallerStored(env: Env, store: Store, r: Run, a: Asset, file: Bytes)
    requires CollisionFree(env) && Truthful(env, store) && TagVersion(r.version)
    requires a in r.assets && Validates(env, a, file)
    requires forall i :: 0 <= i < |r.assets| ==> AssetHeld(store, r, i)
    ensures AliasBacked(store, a.name, file)
  {
    var i :| 0 <= i < |r.assets| && r.assets[i] == a;
    assert AssetHeld(store, r, i);
    assert env.sha(store[AssetKey(r.version, a.name)].bytes) == env.sha(file);
  }

  lemma InvParts(env: Env, s: State, id: nat)
    requires Inv(env, s) && id in s.runs
    ensures RunOk(env, s.store, s.log, id, s.runs[id])
    ensures Truthful(env, s.store) && ChannelsBacked(env, s.store) && AliasesBacked(s.store)
  {}

  /** A step that only changes what a run knows. */
  lemma OnlyRun(env: Env, s: State, id: nat, r: Run)
    requires Inv(env, s) && id in s.runs && RunOk(env, s.store, s.log, id, r)
    ensures Inv(env, Set(s, id, r))
  {
    RunsKept(env, s, Set(s, id, r), id);
  }

  /** A step of run `id` that also changes the store. */
  lemma StoreStep(env: Env, s: State, id: nat, r: Run, store: Store)
    requires Inv(env, s) && id in s.runs && RunOk(env, store, s.log, id, r)
    requires Truthful(env, store) && Grows(s.store, store)
    requires ChannelsBacked(env, store) && AliasesBacked(store)
    ensures Inv(env, Set(s.(store := store), id, r))
  {
    RunsKept(env, s, Set(s.(store := store), id, r), id);
  }

  /** The same with a new entry in the log. */
  lemma LogStep(env: Env, s: State, id: nat, r: Run, store: Store, e: Event)
    requires Inv(env, s) && id in s.runs && RunOk(env, store, s.log + [e], id, r)
    requires Truthful(env, store) && Grows(s.store, store)
    requires ChannelsBacked(env, store) && AliasesBacked(store)
    requires e.ChannelMoved? && !e.prerelease ==>
      forall j :: 0 <= j < |INSTALLERS| ==> AliasVerified(e.run, INSTALLERS[j]) in s.log
    ensures Inv(env, Set(s.(store := store, log := s.log + [e]), id, r))
  {
    hide RunOk, Grows, Truthful, ChannelsBacked, AliasesBacked;
    var s' := Set(s.(store := store, log := s.log + [e]), id, r);
    RunsKept(env, s, s', id);
    forall k | 0 <= k < |s'.log| ensures MoveFollows(s'.log, k) {
      if k < |s.log| {
        assert MoveFollows(s.log, k);
        assert s'.log[..k] == s.log[..k];
      } else {
        assert s'.log[..k] == s.log;
      }
    }
  }

  lemma GrowsSame(store: Store)
    ensures Grows(store, store)
  {}

  ghost predicate AliasesLogged(log: seq<Event>, id: nat, n: nat) {
    forall j :: 0 <= j < n && j < |INSTALLERS| ==> AliasVerified(id, INSTALLERS[j]) in log
  }

  /** What a run must know to stand in a phase. */
  lemma EnterPhase(env: Env, store: Store, log: seq<Event>, id: nat, r: Run, phase: Phase)
    requires RunOk(env, store, log, id, r)
    requires AssetsDone(phase) ==> r.finalize && forall i :: 0 <= i < |r.assets| ==> AssetHeld(store, r, i)
    requires MetadataDone(phase) ==>
      Holds(store, MetadataKey(r.version), |Metadata(env, r)|, env.sha(Metadata(env, r)))
    requires !r.prerelease ==> AliasesLogged(log, id, AliasesDone(phase))
    ensures RunOk(env, store, log, id, r.(phase := phase))
  {
    var r' := r.(phase := phase);
    forall i | 0 <= i < |r.assets| && AssetHeld(store, r, i) ensures AssetHeld(store, r', i) {}
  }

  /** Going on to a phase that asks for nothing new. */
  lemma Moves(env: Env, s: State, id: nat, phase: Phase)
    requires Inv(env, s) && id in s.runs
    requires AssetsDone(phase) ==> AssetsDone(s.runs[id].phase)
    requires MetadataDone(phase) ==> MetadataDone(s.runs[id].phase)
    requires AliasesDone(phase) <= AliasesDone(s.runs[id].phase)
    ensures Inv(env, Advance(s, id, phase))
  {
    EnterPhase(env, s.store, s.log, id, s.runs[id], phase);
    OnlyRun(env, s, id, s.runs[id].(phase := phase));
  }

  lemma StartKeeps(env: Env, s: State, a: Action)
    requires Inv(env, s) && a.Start?
    ensures Inv(env, Apply(env, s, a))
  {
    if TagVersion(a.version) && a.listing != [] {
      var s' := Apply(env, s, a);
      assert RunOk(env, s'.store, s'.log, s.nextId, s'.runs[s.nextId]);
    }
  }

  lemma CrashKeeps(env: Env, s: State, a: Action)
    requires Inv(env, s) && a.Crash?
    ensures Inv(env, Apply(env, s, a))
  {}

  lemma FindingKeeps(env: Env, s: State, id: nat, a: Action)
    requires Inv(env, s) && id in s.runs && (a.Probe? || a.EndFinding?)
    ensures Inv(env, Act(env, s, id, s.runs[id], a))
  {
    hide Inv;
    InvParts(env, s, id);
    var r := s.runs[id];
    match a
    case Probe(_, i) =>
      if r.phase.Finding? && i < |r.assets| && r.status[i].Unknown? {
        OnlyRun(env, s, id, r.(phase := Failed(false)));
        OnlyRun(env, s, id, r.(status := r.status[i := Missing]));
        if AssetHeld(s.store, r, i) { OnlyRun(env, s, id, r.(status := r.status[i := Verified])); }
      }
    case EndFinding(_) => Moves(env, s, id, Uploading);
  }

  lemma CheckingKeeps(env: Env, s: State, id: nat, a: Action)
    requires Inv(env, s) && id in s.runs && (a.Check? || a.EndUploading?)
    ensures Inv(env, Act(env, s, id, s.runs[id], a))
  {
    hide Inv;
    InvParts(env, s, id);
    var r := s.runs[id];
    match a
    case Check(_, i) =>
      if r.phase.Uploading? && r.finalize && i < |r.assets| && r.status[i].Uploaded? {
        Moves(env, s, id, Failed(true));
        if AssetHeld(s.store, r, i) { OnlyRun(env, s, id, r.(status := r.status[i := Verified])); }
      }
    case EndUploading(_) =>
      Moves(env, s, id, Done);
      if r.finalize && AllStatus(r, Verified) {
        OnlyRun(env, s, id, r.(phase := MetadataPut));
      }
  }

  lemma UploadKeeps(env: Env, s: State, id: nat, a: Action)
    requires Inv(env, s) && id in s.runs && a.Upload?
    ensures Inv(env, Act(env, s, id, s.runs[id], a))
  {
    hide Inv;
    InvParts(env, s, id);
    var r := s.runs[id];
    var i := a.asset;
    if (r.phase == Uploading || r.phase == Failed(true)) && i < |r.assets| && r.status[i].Missing? {
      var x := r.assets[i];
      if !Validates(env, x, a.file) {
        Moves(env, s, id, Failed(true));
      } else {
        var store := PutNew(s.store, AssetKey(r.version, x.name), a.file, x.sha256);
        PutNewKeeps(env, s.store, r.version, x.name, a.file, x.sha256);
        RunKept(env, s.store, store, s.log, s.log, id, r);
        StoreStep(env, s, id, r.(status := r.status[i := Uploaded]), store);
      }
    }
  }

  lemma MetadataKeeps(env: Env, s: State, id: nat, a: Action)
    requires Inv(env, s) && id in s.runs && (a.PutMetadata? || a.CheckMetadata?)
    ensures Inv(env, Act(env, s, id, s.runs[id], a))
  {
    hide Inv;
    InvParts(env, s, id);
    var r := s.runs[id];
    var m := Metadata(env, r);
    if a.PutMetadata? && r.phase.MetadataPut? {
      var store := PutNew(s.store, MetadataKey(r.version), m, env.sha(m));
      PutNewKeeps(env, s.store, r.version, METADATA, m, env.sha(m));
      RunKept(env, s.store, store, s.log, s.log, id, r);
      EnterPhase(env, store, s.log, id, r, MetadataCheck);
      StoreStep(env, s, id, r.(phase := MetadataCheck), store);
    } else if a.CheckMetadata? && r.phase.MetadataCheck? {
      Moves(env, s, id, Failed(false));
      if Holds(s.store, MetadataKey(r.version), |m|, env.sha(m)) {
        EnterPhase(env, s.store, s.log, id, r, AfterMetadata(r));
        OnlyRun(env, s, id, r.(phase := AfterMetadata(r)));
      }
    }
  }

  lemma PutAliasStep(env: Env, s: State, id: nat, a: Action)
    requires CollisionFree(env) && Inv(env, s) && id in s.runs && a.PutAlias?
    ensures Inv(env, Act(env, s, id, s.runs[id], a))
  {
    hide Inv;
    InvParts(env, s, id);
    var r := s.runs[id];
    if r.phase.AliasPut? && r.phase.i < |INSTALLERS| {
      Moves(env, s, id, Failed(false));
      var name := INSTALLERS[r.phase.i];
      if HasInstallers(r.assets) && Validates(env, Named(r.assets, name).value, a.file) {
        var x := Named(r.assets, name).value;
        var store := Put(s.store, AliasKey(name), a.file, x.sha256);
        InstallerStored(env, s.store, r, x, a.file);
        PutAliasKeeps(env, s.store, name, a.file);
        RunKept(env, s.store, store, s.log, s.log, id, r);
        EnterPhase(env, store, s.log, id, r, AliasCheck(r.phase.i));
        StoreStep(env, s, id, r.(phase := AliasCheck(r.phase.i)), store);
      }
    }
  }

  /** The phase after the check of installer `i`. */
  function AfterAlias(i: nat): Phase {
    if i + 1 < |INSTALLERS| then AliasPut(i + 1) else ChannelPut(0)
  }

  lemma AliasLogged(log: seq<Event>, id: nat, i: nat)
    requires i < |INSTALLERS| && AliasesLogged(log, id, i)
    ensures AliasesLogged(log + [AliasVerified(id, INSTALLERS[i])], id, AliasesDone(AfterAlias(i)))
  {
    var e := AliasVerified(id, INSTALLERS[i]);
    assert |INSTALLERS| == 2 && AliasesDone(AfterAlias(i)) == i + 1;
    forall j | 0 <= j < i + 1 && j < |INSTALLERS| ensures AliasVerified(id, INSTALLERS[j]) in log + [e] {
      if j < i { assert AliasVerified(id, INSTALLERS[j]) in log; }
    }
  }

  lemma AliasVerifiedStep(env: Env, s: State, id: nat, i: nat)
    requires Inv(env, s) && id in s.runs && s.runs[id].phase == AliasCheck(i) && i < |INSTALLERS|
    ensures Inv(env, Set(s.(log := s.log + [AliasVerified(id, INSTALLERS[i])]), id,
                         s.runs[id].(phase := AfterAlias(i))))
  {
    var r := s.runs[id];
    var e := AliasVerified(id, INSTALLERS[i]);
    GrowsSame(s.store);
    RunKept(env, s.store, s.store, s.log, s.log + [e], id, r);
    if !r.prerelease { AliasLogged(s.log, id, i); }
    EnterPhase(env, s.store, s.log + [e], id, r, AfterAlias(i));
    LogStep(env, s, id, r.(phase := AfterAlias(i)), s.store, e);
    assert s.(store := s.store, log := s.log + [e]) == s.(log := s.log + [e]);
  }

  lemma CheckAliasStep(env: Env, s: State, id: nat, a: Action)
    requires Inv(env, s) && id in s.runs && a.CheckAlias?
    ensures Inv(env, Act(env, s, id, s.runs[id], a))
  {
    hide Inv;
    var r := s.runs[id];
    if r.phase.AliasCheck? && r.phase.i < |INSTALLERS| {
      Moves(env, s, id, Failed(false));
      AliasVerifiedStep(env, s, id, r.phase.i);
    }
  }

  lemma ChannelStep(env: Env, s: State, id: nat, a: Action)
    requires CollisionFree(env) && Inv(env, s) && id in s.runs && (a.PutChannel? || a.CheckChannel?)
    ensures Inv(env, Act(env, s, id, s.runs[id], a))
  {
    hide Inv;
    InvParts(env, s, id);
    var r := s.runs[id];
    var m := Metadata(env, r);
    if a.PutChannel? && r.phase.ChannelPut? {
      Moves(env, s, id, Done);
      if r.phase.i < |ChannelsOf(r)| {
        var channel := ChannelsOf(r)[r.phase.i];
        var store := Put(s.store, ChannelKey(channel), m, env.sha(m));
        var e := ChannelMoved(id, channel, r.prerelease);
        RunComplete(env, s.store, s.log, id, r);
        PutChannelKeeps(env, s.store, channel, m);
        RunKept(env, s.store, store, s.log, s.log + [e], id, r);
        EnterPhase(env, store, s.log + [e], id, r, ChannelCheck(r.phase.i));
        LogStep(env, s, id, r.(phase := ChannelCheck(r.phase.i)), store, e);
      }
    } else if a.CheckChannel? && r.phase.ChannelCheck? {
      Moves(env, s, id, Failed(false));
      Moves(env, s, id, ChannelPut(r.phase.i + 1));
    }
  }

  /** Every step of every run keeps the invariant. */
  lemma StepKeeps(env: Env, s: State, a: Action)
    requires CollisionFree(env) && Inv(env, s)
    ensures Inv(env, Apply(env, s, a))
  {
    hide Inv;
    if a.Start? {
      StartKeeps(env, s, a);
    } else if a.Crash? {
      CrashKeeps(env, s, a);
    } else if a.run in s.runs {
      var id := a.run;
      match a
      case Upload(_, _, _) => UploadKeeps(env, s, id, a);
      case PutMetadata(_) => MetadataKeeps(env, s, id, a);
      case CheckMetadata(_) => MetadataKeeps(env, s, id, a);
      case PutAlias(_, _) => PutAliasStep(env, s, id, a);
      case CheckAlias(_) => CheckAliasStep(env, s, id, a);
      case PutChannel(_) => ChannelStep(env, s, id, a);
      case CheckChannel(_) => ChannelStep(env, s, id, a);
      case Fault(_) => Moves(env, s, id, Failed(s.runs[id].phase == Uploading || s.runs[id].phase == Failed(true)));
      case Check(_, _) => CheckingKeeps(env, s, id, a);
      case EndUploading(_) => CheckingKeeps(env, s, id, a);
      case _ => FindingKeeps(env, s, id, a);
    }
  }

  lemma Initially(env: Env)
    ensures Inv(env, INITIAL)
  {}

  lemma {:induction false} Reachable(env: Env, actions: seq<Action>)
    requires CollisionFree(env)
    ensures Inv(env, Exec(env, actions))
  {
    hide Apply, Inv;
    assert Inv(env, INITIAL) by { Initially(env); }
    if actions != [] {
      Reachable(env, actions[..|actions| - 1]);
      StepKeeps(env, Exec(env, actions[..|actions| - 1]), actions[|actions| - 1]);
    }
  }

  /** Whatever the runs do, on whatever listings, and wherever they stop: a channel holds the stored
      metadata of some version all of whose assets are in place with the listed digest; clashing
      names of its listing can only stand for the same asset. */
  lemma ChannelSafety(env: Env, actions: seq<Action>, channel: string)
    returns (version: string, assets: seq<Asset>)
    requires CollisionFree(env) && ChannelKey(channel) in Exec(env, actions).store
    ensures var store := Exec(env, actions).store;
            && Complete(env, store, version, assets) && ClashesAgree(env, version, assets)
            && store[ChannelKey(channel)].bytes == store[MetadataKey(version)].bytes
  {
    Reachable(env, actions);
    var store := Exec(env, actions).store;
    version, assets :| Complete(env, store, version, assets)
                    && store[ChannelKey(channel)].bytes == env.render(version, assets);
    CompleteAgrees(env, store, version, assets);
  }

  /** The same for a reader of the channel: however it reads a version and a listing out of the text,
      each listed asset is stored under that version, with contents of the listed digest. */
  lemma ChannelReader(env: Env, actions: seq<Action>, channel: string, version: string, assets: seq<Asset>, i: nat)
    requires CollisionFree(env) && Legible(env) && i < |assets|
    requires ChannelKey(channel) in Exec(env, actions).store
    requires Exec(env, actions).store[ChannelKey(channel)].bytes == env.render(version, assets)
    ensures var store := Exec(env, actions).store;
            var key := AssetKey(version, assets[i].name);
            && key in store && store[key].sha256 == env.sha(store[key].bytes) == assets[i].sha256
            && MetadataKey(version) in store
            && store[MetadataKey(version)].bytes == store[ChannelKey(channel)].bytes
  {
    hide Exec;
    var v, xs := ChannelSafety(env, actions, channel);
    assert env.render(v, xs) == env.render(version, assets);
    assert Holds(Exec(env, actions).store, AssetKey(v, xs[i].name), xs[i].size, xs[i].sha256);
  }

  /** A run whose listing has clashing names that differ, or has the metadata's name for something
      else than the metadata, never comes past the check of its metadata: it moves no alias and no
      channel. */
  lemma UnfitStops(env: Env, actions: seq<Action>, id: nat)
    requires CollisionFree(env) && id in Exec(env, actions).runs
    requires var r := Exec(env, actions).runs[id]; !ClashesAgree(env, r.version, r.assets)
    ensures !MetadataDone(Exec(env, actions).runs[id].phase)
  {
    Reachable(env, actions);
    var s := Exec(env, actions);
    var r := s.runs[id];
    if MetadataDone(r.phase) {
      RunComplete(env, s.store, s.log, id, r);
      CompleteAgrees(env, s.store, r.version, r.assets);
    }
  }

  /** An installer alias holds the stored installer asset of some version. */
  lemma AliasSafety(env: Env, actions: seq<Action>, name: string) returns (version: string)
    requires CollisionFree(env) && name in INSTALLERS && AliasKey(name) in Exec(env, actions).store
    ensures var store := Exec(env, actions).store;
            && AssetKey(version, name) in store
            && store[AliasKey(name)].bytes == store[AssetKey(version, name)].bytes
  {
    Reachable(env, actions);
    var store := Exec(env, actions).store;
    version :| TagVersion(version) && AssetKey(version, name) in store
            && store[AssetKey(version, name)].bytes == store[AliasKey(name)].bytes;
  }

  /** Every move of a channel by a stable run has, earlier in history, that same run's
      verification of both installer aliases. */
  lemma StableMovesLast(env: Env, actions: seq<Action>, k: nat, j: nat)
    requires CollisionFree(env) && k < |Exec(env, actions).log| && j < |INSTALLERS|
    requires var e := Exec(env, actions).log[k]; e.ChannelMoved? && !e.prerelease
    ensures var log := Exec(env, actions).log;
            exists i :: 0 <= i < k && log[i] == AliasVerified(log[k].run, INSTALLERS[j])
  {
    Reachable(env, actions);
    var log := Exec(env, actions).log;
    assert MoveFollows(log, k);
    var i :| 0 <= i < |log[..k]| && log[..k][i] == AliasVerified(log[k].run, INSTALLERS[j]);
    assert log[i] == log[..k][i];
  }

  lemma StepGrows(env: Env, s: State, a: Action)
    ensures Grows(s.store, Apply(env, s, a).store)
  {
    if !a.Start? && a.run in s.runs {
      var r := s.runs[a.run];
      match a
      case PutAlias(_, _) =>
        if r.phase.AliasPut? && r.phase.i < |INSTALLERS| { AliasKeyMutable(INSTALLERS[r.phase.i]); }
      case PutChannel(_) =>
        if r.phase.ChannelPut? && r.phase.i < |ChannelsOf(r)| { ChannelKeyMutable(ChannelsOf(r)[r.phase.i]); }
      case _ =>
    }
  }

  /** No versioned object ever changes or goes away, whatever happens afterwards. */
  lemma {:induction false} Immutable(env: Env, actions: seq<Action>, later: seq<Action>)
    ensures Grows(Exec(env, actions).store, Exec(env, actions + later).store)
  {
    hide Apply;
    if later == [] {
      assert actions + later == actions;
    } else {
      var all := actions + later;
      Immutable(env, actions, later[..|later| - 1]);
      assert all[..|all| - 1] == actions + later[..|later| - 1];
      StepGrows(env, Exec(env, all[..|all| - 1]), all[|all| - 1]);
    }
  }
}
