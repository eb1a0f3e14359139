/** The publish protocol as a state machine: any number of `assets` and `finalize` runs, for any
    versions, whose steps interleave in any order. A run may stop for good after any step; its
    upload workers may still be at work when its main line has failed. */
module ReleaseProtocol {
  import opened Text
  import opened VersionGrammar
  import opened ReleaseKeys
  import opened ReleaseStore

  /** How far one asset of a run has come. */
  datatype Status = Unknown | Missing | Uploaded | Verified

  datatype Phase =
    | Finding
    | Uploading
    | MetadataPut
    | MetadataCheck
    | AliasPut(i: nat)
    | AliasCheck(i: nat)
    | ChannelPut(i: nat)
    | ChannelCheck(i: nat)
    | Done
    | Failed(workers: bool)

  datatype Run = Run(version: string, finalize: bool, makeLatest: bool, prerelease: bool,
                     assets: seq<Asset>, status: seq<Status>, phase: Phase)

  /** What an observer of all runs would note down. */
  datatype Event = AliasVerified(run: nat, name: string) | ChannelMoved(run: nat, channel: string, prerelease: bool)

  datatype State = State(store: Store, runs: map<nat, Run>, nextId: nat, log: seq<Event>)

  const INITIAL := State(map[], map[], 0, [])

  datatype Action =
    | Start(version: string, finalize: bool, makeLatest: bool, prerelease: bool, listing: seq<Asset>)
    | Probe(run: nat, asset: nat)
    | EndFinding(run: nat)
    | Upload(run: nat, asset: nat, file: Bytes)
    | Check(run: nat, asset: nat)
    | EndUploading(run: nat)
    | PutMetadata(run: nat)
    | CheckMetadata(run: nat)
    | PutAlias(run: nat, file: Bytes)
    | CheckAlias(run: nat)
    | PutChannel(run: nat)
    | CheckChannel(run: nat)
    | Fault(run: nat)
    | Crash(run: nat)

  function ChannelsOf(r: Run): seq<string> { Channels(r.makeLatest, r.prerelease) }

  function Metadata(env: Env, r: Run): Bytes { env.render(r.version, r.assets) }

  ghost predicate AllStatus(r: Run, status: Status) {
    forall i :: 0 <= i < |r.status| ==> r.status[i] == status
  }

  function Set(s: State, id: nat, r: Run): State { s.(runs := s.runs[id := r]) }

  function Advance(s: State, id: nat, phase: Phase): State
    requires id in s.runs
  {
    Set(s, id, s.runs[id].(phase := phase))
  }

  function Mark(s: State, id: nat, i: nat, status: Status): State
    requires id in s.runs && i < |s.runs[id].status|
  {
    Set(s, id, s.runs[id].(status := s.runs[id].status[i := status]))
  }

  /** After the metadata: the installers of a stable release, otherwise the channels. */
  function AfterMetadata(r: Run): Phase {
    if r.prerelease then ChannelPut(0) else AliasPut(0)
  }

  /** One step. An action that is not possible in the state changes nothing. */
  ghost function Apply(env: Env, s: State, a: Action): State {
    match a
    case Start(version, finalize, makeLatest, prerelease, listing) =>
      if !TagVersion(version) || listing == [] then s else
        var status := seq(|listing|, i => if finalize then Unknown else Missing);
        var r := Run(version, finalize, makeLatest, prerelease, listing, status,
                     if finalize then Finding else Uploading);
        s.(runs := s.runs[s.nextId := r], nextId := s.nextId + 1)
    case Crash(id) => s.(runs := s.runs - {id})
    case _ => if a.run in s.runs then Act(env, s, a.run, s.runs[a.run], a) else s
  }

  ghost function Act(env: Env, s: State, id: nat, r: Run, a: Action): State
    requires id in s.runs && s.runs[id] == r && !a.Start?
  {
    match a
    case Probe(_, i) =>
      if !r.phase.Finding? || i >= |r.status| || i >= |r.assets| || !r.status[i].Unknown? then s else
        var x := r.assets[i];
        var key := AssetKey(r.version, x.name);
        if key !in s.store then Mark(s, id, i, Missing)
        else if Holds(s.store, key, x.size, x.sha256) then Mark(s, id, i, Verified)
        else Advance(s, id, Failed(false))
    case EndFinding(_) =>
      if r.phase.Finding? && forall i :: 0 <= i < |r.status| ==> !r.status[i].Unknown?
      then Advance(s, id, Uploading) else s
    case Upload(_, i, file) =>
      if !(r.phase == Uploading || r.phase == Failed(true)) || i >= |r.status| || i >= |r.assets|
         || !r.status[i].Missing? then s
      else
        var x := r.assets[i];
        if !Validates(env, x, file) then Advance(s, id, Failed(true)) else
          Mark(s.(store := PutNew(s.store, AssetKey(r.version, x.name), file, x.sha256)), id, i, Uploaded)
    case Check(_, i) =>
      if !r.phase.Uploading? || !r.finalize || i >= |r.status| || i >= |r.assets|
         || !r.status[i].Uploaded? then s
      else
        var x := r.assets[i];
        if Holds(s.store, AssetKey(r.version, x.name), x.size, x.sha256)
        then Mark(s, id, i, Verified) else Advance(s, id, Failed(true))
    case EndUploading(_) =>
      if !r.phase.Uploading? then s
      else if r.finalize && AllStatus(r, Verified) then Advance(s, id, MetadataPut)
      else if !r.finalize && AllStatus(r, Uploaded) then Advance(s, id, Done)
      else s
    case PutMetadata(_) =>
      if !r.phase.MetadataPut? then s else
        var m := Metadata(env, r);
        Advance(s.(store := PutNew(s.store, MetadataKey(r.version), m, env.sha(m))), id, MetadataCheck)
    case CheckMetadata(_) =>
      if !r.phase.MetadataCheck? then s else
        var m := Metadata(env, r);
        Advance(s, id, if Holds(s.store, MetadataKey(r.version), |m|, env.sha(m))
                       then AfterMetadata(r) else Failed(false))
    case PutAlias(_, file) =>
      if !r.phase.AliasPut? || r.phase.i >= |INSTALLERS| then s
      else if !HasInstallers(r.assets) then Advance(s, id, Failed(false))
      else
        var name := INSTALLERS[r.phase.i];
        var x := Named(r.assets, name).value;
        if !Validates(env, x, file) then Advance(s, id, Failed(false)) else
          Advance(s.(store := Put(s.store, AliasKey(name), file, x.sha256)), id, AliasCheck(r.phase.i))
    case CheckAlias(_) =>
      if !r.phase.AliasCheck? || r.phase.i >= |INSTALLERS| || !HasInstallers(r.assets) then s else
        var name := INSTALLERS[r.phase.i];
        var x := Named(r.assets, name).value;
        if !Holds(s.store, AliasKey(name), x.size, x.sha256) then Advance(s, id, Failed(false)) else
          Advance(s.(log := s.log + [AliasVerified(id, name)]), id,
                  if r.phase.i + 1 < |INSTALLERS| then AliasPut(r.phase.i + 1) else ChannelPut(0))
    case PutChannel(_) =>
      if !r.phase.ChannelPut? then s
      else if r.phase.i >= |ChannelsOf(r)| then Advance(s, id, Done)
      else
        var channel := ChannelsOf(r)[r.phase.i];
        var m := Metadata(env, r);
        Advance(s.(store := Put(s.store, ChannelKey(channel), m, env.sha(m)),
                   log := s.log + [ChannelMoved(id, channel, r.prerelease)]),
                id, ChannelCheck(r.phase.i))
    case CheckChannel(_) =>
      if !r.phase.ChannelCheck? || r.phase.i >= |ChannelsOf(r)| then s else
        var m := Metadata(env, r);
        Advance(s, id, if Holds(s.store, ChannelKey(ChannelsOf(r)[r.phase.i]), |m|, env.sha(m))
                       then ChannelPut(r.phase.i + 1) else Failed(false))
    case Fault(_) => Advance(s, id, Failed(r.phase == Uploading || r.phase == Failed(true)))
    case Crash(_) => s
  }

  /** Everything that can happen: any sequence of steps of any runs. */
  ghost function Exec(env: Env, actions: seq<Action>): State {
    if actions == [] then INITIAL else Apply(env, Exec(env, actions[..|actions| - 1]), actions[|actions| - 1])
  }
}
