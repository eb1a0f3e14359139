# Publishing, reconciliation and rewriting: a verified model

This project models the Python tooling of the repository whose effects are hard to undo or easy to
get subtly wrong, and proves what it guarantees. Loops and objects that change state are Dafny
methods and classes proved against specification functions; the guarantees are lemmas about those
functions. `dafny verify dfyconfig.toml` checks everything.

## What is modelled

**Release publisher** (`codex/.github/scripts/publish_r2_release.py`), modules `ReleaseKeys` to
`ReleaseFailures`, and `ReleaseOutcome`, which says in literal keys what a run leaves. The object
store is a map from key to bytes and digest metadata. The protocol exists twice. `ReleaseProtocol` is a state machine for any number of `assets` and `finalize` runs
for any tags: single probes, uploads, verifications, faults and crashes interleave freely, and
upload workers go on after their run has failed. `ReleasePublisher` and `ReleaseFinalize` are the
methods of the script over a mutable bucket and download directory, with any order of workers and
completions. `ReleaseRefinement` and `ReleaseFailures` connect the two: what the method leaves,
whether it succeeds or fails, is reached by the machine from every state. `ReleaseRecovery` and
`ReleaseRepeat` say what retries do.

**Reconciliation** (`scripts/ascodex_reconciliation*.py`), module `PlatformJson` and the
`Reconciliation` and `Scheduler` modules. A page of the platform becomes items, a cycle hands them to
the ledger and checks the reply, the scheduler announces a wake and persists its cursor. The disk is the series of
atomic file replacements; a history is any number of runs, each cut after any write and restarted.
The ledger's answers are arbitrary. `ReconciliationEvidence`, `ReconciliationAttempts`,
`ReconciliationOutcome` and `SchedulerSteps` say what items, cycles and runs come to in terms of the
response and the reply alone.

**Module file rewriter** (`codex/.github/scripts/rusty_v8_module_bazel.py`), modules
`ChecksumManifest` and the `Module` modules. The regular expressions are modelled
character by character on the whole text, including `\s*` running over line ends; `ModuleMatches`
and `ModuleFinditer` tie the searches to the positions at which the expressions match, leftmost
first. The block scan, the digest edit, the splice over offsets and the check are tied together: re-scanning the output
finds the same blocks.

**Version printing** (`codex/sdk/python/release_version.py`), modules `VersionGrammar` and
`ReleaseVersion` to `ReleaseSpellings`, linked to the publisher's tag grammar.

**Bazel wrapper** (`codex/.github/scripts/run_bazel_with_buildbuddy.py`), modules `BazelWrapper`
and `BazelOptions`.

**Redundant attempts** (`bohrium-kb/tools/cleanup_redundant_attempts.py`), module `CleanupPlan`.

**Trace builder and its audit** (`scripts/ascodex_trace_builder.py`,
`bohrium-kb/tools/submit_gate_audit.py`), modules `TraceSteps` to `TraceAudit`.

## Assumptions

- `--no-overwrite` is an atomic create-if-absent that succeeds silently when the key exists; nobody
  else writes under `codex/`; a local file does not change between validation and upload; an
  asset's digest is fixed once it is `uploaded`. The CRC64 header always has the expected form.
- SHA-256 is an arbitrary function. Where a result needs it to be free of collisions, the lemma
  says so (`CollisionFree`, or `Injective` for the truncated digest that names a wake file).
- Serialisers are arbitrary functions. `ChannelReader` needs that the text of `release.json` tells the
  version, the names and the digests (`Legible`). The trace audit needs that each step of the file in
  question reads back from its dump, that no proper prefix of the dump does, and that the dump shows
  exactly the non-ASCII line separators of its step (`AllDumpOk`; `CodecExists` shows that this can be
  had). The anti-cheat theorem needs that the word tests of the JSON library keep the four
  status words (`KeepsWords`).
- An attempt id belongs to one author (`Coherent`, in the conservation results about deletions).
- Identifiers in a wake are free of NUL (`SaneSession`); the context file does not change while a
  run is under way, and nobody but the scheduler edits its state file.
- Scores, weights and costs are real numbers.

## Where the code falls short of what it seems to promise

Each is proved, with the exact condition or a concrete family of inputs.

- Asset names are checked as given but used by their last path component: `dir/release.json` is
  accepted and lands on the metadata key (`SlashedName`). Exactly the lists without such clashes
  suit the `finalize` method and its retries (`ListFit`); bare names always do. The safety results
  hold for all lists, and a run over a clashing list moves nothing unless the clashing entries are one
  and the same (`UnfitStops`).
- A digest that is not lower-case hexadecimal is not replaced by the update and may still be the one
  the check reads (`DigestDrifts`). The check accepts the output of the update exactly if all
  selected blocks read back (`UpdateThenCheck`).
- A digest inserted before a blank line makes the second update swallow that line (`BlankLineLost`);
  updating twice equals updating once exactly if this does not happen (`UpdateTwice`).
- A quoted value may span lines, so the closing quote of a path entry can open the value of another
  field. A digest line inserted there cuts that value off (`FieldLost`). `OtherFieldsAfter` says what
  each field reads as, in every case; with a path on one line nothing changes (`OneLinePath`).
- The normaliser accepts `1.2-bet-alpha3` as a beta (`StrayAccepted`); the publisher's bare
  `-alpha` and `-beta` tags do not normalise (`PublisherVersion`).
- With a key the wrapper is not idempotent (`KeyGrows`), and when `--` precedes the command the
  arguments behind `--` are changed (`PayloadKept`).
- A challenge whose scores are all negative may lose its best attempt, because the maximum is
  clamped at zero (`NegativeTopLost`, `TopSurvives`).
- A trace whose problem, commands, log or artifact path contains U+0085, U+2028 or U+2029 is written
  but cannot be read by the audit (`AuditVerdict`).
- A batch that the ledger refuses, or whose cycle crashes before the state is written, is repeated from
  the same cursor by the next run, with whatever the page then holds (`RefusedTwice`,
  `PositionsRepeat`, `BatchesAligned`). Positions are distinct over completed cycles
  (`PositionsIncrease`), and over all batches exactly if the cycles completed in between take up each
  earlier batch (`BatchesAscendExactly`, `AscendIffSaved`).
- An unhashable `mode` or item `status` raises an exception that the scheduler does not catch; the
  state file then keeps its former content (`OneCycle`).

## Model

| member | source | states |
|---|---|---|
| ReleaseSafety.ChannelSafety | codex/.github/scripts/publish_r2_release.py:458-505 | In every state that any interleaving of `assets` and `finalize` runs, faults and crashes reaches, on any non-empty listings, an existing channel object has the bytes of the stored `release.json` of some version whose listed assets are all stored under that version with the listed size and digest; clashing names in that listing can only stand for one asset |
| ReleaseSafety.ChannelReader | codex/.github/scripts/publish_r2_release.py:434-505 | The same for a reader: whatever version and listing the text of a channel renders, each listed asset is stored under that version with contents of the listed digest |
| ReleaseSafety.UnfitStops | codex/.github/scripts/publish_r2_release.py:112-126 | A run whose listing has clashing names for different assets, or the name of the metadata for something else, never comes past the check of its metadata |
| ReleaseSafety.AliasSafety | codex/.github/scripts/publish_r2_release.py:268-285 | In every reachable state an existing top-level installer has the bytes of that installer in some published version |
| ReleaseSafety.StableMovesLast | codex/.github/scripts/publish_r2_release.py:479-505 | Over whole runs: before a stable run moves a channel, that same run has verified each of the two installer aliases |
| ReleaseSafety.StepGrows | codex/.github/scripts/publish_r2_release.py:288-306 | No step of any run changes or removes an object under `codex/releases/` |
| ReleaseSafety.Immutable | codex/.github/scripts/publish_r2_release.py:292-293 | Whatever happens later, each versioned object that exists stays there with the same bytes and metadata |
| ReleaseSafety.StepKeeps | codex/.github/scripts/publish_r2_release.py:377-505 | Every single step, fault or crash keeps the protocol invariant: truthful metadata, each run's knowledge of the store, backed channels and aliases, aliases verified before a stable move |
| ReleaseSafety.Reachable | codex/.github/scripts/publish_r2_release.py:377-505 | The invariant holds after every sequence of steps of any number of runs for any tags |
| ReleaseStore.HeaderSuffices | codex/.github/scripts/publish_r2_release.py:220-265 | If all metadata in the store is truthful and the digest has no collisions, the header comparison succeeds exactly when the stored bytes are the expected bytes |
| ReleaseKeys.KeysApart | codex/.github/scripts/publish_r2_release.py:278-278 | Versioned keys, channel keys and installer keys never coincide |
| ReleaseKeys.AssetKeyInjective | codex/.github/scripts/publish_r2_release.py:292-292 | Version and file name can be read back from a versioned key, because a version has no slash |
| ReleaseKeys.PrefixInjective | codex/.github/scripts/publish_r2_release.py:402-402 | A versioned key lies under the prefix of its own version only |
| VersionGrammar.VersionPlain | codex/.github/scripts/publish_r2_release.py:37-40 | A version of the tag grammar has no slash and starts with a digit |
| ReleaseUploads.UploadAllAt | codex/.github/scripts/publish_r2_release.py:309-328 | What a set of no-overwrite uploads leaves at each key: an earlier object stays, a validated file of the list appears with its own bytes and digest, nothing else appears |
| ReleaseUploads.OrderFree | codex/.github/scripts/publish_r2_release.py:316-328 | Uploads in any order leave the same store |
| ReleaseUploads.HoldsAfter | codex/.github/scripts/publish_r2_release.py:293-295 | After the uploads a sound asset verifies exactly if its key was free or already held the same header |
| ReleasePublisher.Bucket.Upload | codex/.github/scripts/publish_r2_release.py:189-217 | The new store: an overwrite, or with `--no-overwrite` a create-if-absent |
| ReleasePublisher.Bucket.Verify | codex/.github/scripts/publish_r2_release.py:220-265 | Succeeds exactly if the object is there with the expected size and digest; a missing object is told apart from a mismatch |
| ReleasePublisher.Directory.Download | codex/.github/scripts/publish_r2_release.py:133-158 | Succeeds exactly if GitHub has every requested file; adds requested files only, with GitHub's bytes |
| ReleasePublisher.StreamDigest | codex/.github/scripts/publish_r2_release.py:161-167 | Size and digest of the whole file, whatever the chunks |
| ReleasePublisher.ValidateAsset | codex/.github/scripts/publish_r2_release.py:170-178 | Accepts exactly a local file of the listed size and digest |
| ReleasePublisher.PublishAsset | codex/.github/scripts/publish_r2_release.py:288-306 | The store after the call on every path; success exactly if the file is sound and, when verifying, the stored header agrees |
| ReleasePublisher.WorkersAgree | codex/.github/scripts/publish_r2_release.py:293-295 | A worker that verifies right after its own upload sees what it would see after all uploads, so the verdict does not depend on the schedule |
| ReleasePublisher.PublishAssets | codex/.github/scripts/publish_r2_release.py:309-328 | For every worker and completion order: the same store, success exactly if all assets are sound and hold, and the records in the order of the assets |
| ReleasePublisher.FindPublishedAssets | codex/.github/scripts/publish_r2_release.py:331-365 | Fails exactly if an asset is stored with another header; otherwise the result has exactly the stored assets |
| ReleaseFinalize.Remaining | codex/.github/scripts/publish_r2_release.py:413-415 | The assets whose keys are free in the store, in order |
| ReleaseFinalize.Merge | codex/.github/scripts/publish_r2_release.py:425-433 | Records found before and records of this run merge into one record per asset, in asset order |
| ReleaseFinalize.PublishInstallers | codex/.github/scripts/publish_r2_release.py:268-285 | Succeeds exactly if both installers are listed and sound; then the aliases hold them; on failure at most the first alias is refreshed, exactly if both are listed and the first is sound; no other key changes |
| ReleaseFinalize.MirrorAssets | codex/.github/scripts/publish_r2_release.py:412-433 | Find, download and upload: which store results, on success and on failure, when it can fail, that every local file opened was downloaded, and the records in asset order |
| ReleaseFinalize.MetadataUntouched | codex/.github/scripts/publish_r2_release.py:116-116 | Uploading listed assets never touches the `release.json` key |
| ReleaseFinalize.PublishMetadata | codex/.github/scripts/publish_r2_release.py:446-473 | Writes `release.json` if absent; fails exactly if another document is there; channels and versioned objects stay |
| ReleaseFinalize.MoveChannels | codex/.github/scripts/publish_r2_release.py:486-505 | All channels hold the metadata afterwards, and no verification can fail |
| ReleaseFinalize.Finalize | codex/.github/scripts/publish_r2_release.py:412-525 | The `finalize` stage end to end: succeeds exactly when `CanFinalize` holds of the store it found, leaves exactly `Finalized` and returns records in asset order; on failure it leaves exactly `Failed`. What these two stores hold is spelled out key by key by the rows of `ReleaseOutcome` |
| ReleaseFinalize.AssetsStage | codex/.github/scripts/publish_r2_release.py:394-410 | The `assets` stage: succeeds exactly if all files are sound, uploads the sound ones without verification once all are downloaded, moves no channel |
| ReleaseRecovery.ReachesPartial | codex/.github/scripts/publish_r2_release.py:377-505 | Over all runs that follow the same listing, the versioned prefix only ever holds objects that belong to the release |
| ReleaseRecovery.RetrySucceeds | codex/.github/scripts/publish_r2_release.py:412-505 | From any store so left, a `finalize` run without faults meets the condition for success |
| ReleaseRecovery.PublishedAt | codex/.github/scripts/publish_r2_release.py:412-473 | Which object the run leaves at each key under the prefix, from any partial store |
| ReleaseRecovery.RetryEndsAlike | codex/.github/scripts/publish_r2_release.py:412-505 | From any two partial stores the run leaves the same objects under the versioned prefix |
| ReleaseRecovery.Recovery | codex/.github/scripts/publish_r2_release.py:412-505 | After any history of crashed, failed and finished runs, a run without faults succeeds and leaves the prefix as from an empty store |
| ReleaseRepeat.FinalizedHolds | codex/.github/scripts/publish_r2_release.py:412-473 | After success all assets and `release.json` verify |
| ReleaseRepeat.FinalizedAliases | codex/.github/scripts/publish_r2_release.py:268-285 | After a stable success each alias is the listed installer with GitHub's bytes |
| ReleaseRepeat.FinalizedChannels | codex/.github/scripts/publish_r2_release.py:481-505 | After success every moved channel holds this version's metadata |
| ReleaseRepeat.FinalizeTwice | codex/.github/scripts/publish_r2_release.py:412-505 | Running `finalize` again succeeds and changes nothing in the whole store |
| ReleaseOutcome.ChannelsAfter | codex/.github/scripts/publish_r2_release.py:481-505 | After success `codex/channels/latest` holds the metadata with `--make-latest` and is as before without, `codex/channels/prerelease` likewise for a pre-release, and every other channel is as before |
| ReleaseOutcome.InstallersAfter | codex/.github/scripts/publish_r2_release.py:268-285 | After success `codex/install.sh` and `codex/install.ps1` hold GitHub's files for a stable release, and are as before for a pre-release |
| ReleaseOutcome.VersionAfter | codex/.github/scripts/publish_r2_release.py:412-473 | After success each listed asset under `codex/releases/<version>/` is as before if it was there, otherwise GitHub's file; the same for `release.json` and the rendered metadata |
| ReleaseOutcome.ElsewhereAfter | codex/.github/scripts/publish_r2_release.py:412-505 | A successful run changes no other key |
| ReleaseOutcome.FailureAssets | codex/.github/scripts/publish_r2_release.py:412-433 | A failed run that found and downloaded everything leaves each sound missing asset under its key |
| ReleaseOutcome.FailureMetadata | codex/.github/scripts/publish_r2_release.py:446-473 | It writes `release.json` exactly if all missing assets are sound and the key is free |
| ReleaseOutcome.FailureInstallers | codex/.github/scripts/publish_r2_release.py:268-285 | It never writes `codex/install.ps1`, and `codex/install.sh` exactly if the metadata stage was passed, both installers are listed and the first is sound |
| ReleaseOutcome.RecordsSpelled | codex/.github/scripts/publish_r2_release.py:297-306 | A record has the key, name, digest and size of its asset |
| ReleaseRefinement.FinalizeIsARun | codex/.github/scripts/publish_r2_release.py:412-505 | From every machine state, some sequence of machine steps ends in the store that a successful `finalize` stage leaves |
| ReleaseFailures.FailureIsARun | codex/.github/scripts/publish_r2_release.py:412-505 | From every machine state, some sequence of machine steps ends in the store in which a `finalize` stage fails |
| ReleaseFailures.LeftReachable | codex/.github/scripts/publish_r2_release.py:412-505 | So every `finalize` stage, successful or not, takes a reachable store to a reachable one, and everything proved of reachable states holds of what it leaves |
| ReleaseFailures.AssetsIsARun | codex/.github/scripts/publish_r2_release.py:394-410 | From every machine state, some sequence of machine steps ends in the store that an `assets` stage leaves |
| ReleaseFailures.CrashIsFinal | codex/.github/scripts/publish_r2_release.py:377-505 | A crashed run takes no further step, whatever happens later |
| ReleaseFailures.FailureIsFinal | codex/.github/scripts/publish_r2_release.py:377-505 | A failed run stays failed; at most its workers finish creating versioned objects with contents of the listed digest |
| ReleaseListing.GetReleaseMetadata | codex/.github/scripts/publish_r2_release.py:71-130 | Returns exactly on good listings; the result is ascending, and each asset occurs as often as a counted item of the reply has its file name, its size and `sha256:` before its digest |
| ReleaseListing.ListingMeans | codex/.github/scripts/publish_r2_release.py:78-129 | A listing is good exactly if the reply is a list of objects of which some count, all that count are completed uploads with a size and a lower-case SHA-256 digest, and no two of those share a name |
| ReleaseListing.PathNameLast | codex/.github/scripts/publish_r2_release.py:116-116 | The last component of a path counts |
| ReleaseListing.PathNameEnds | codex/.github/scripts/publish_r2_release.py:116-116 | Separators and single dots at the end of a path do not count |
| ReleaseListing.BeforeMeans | codex/.github/scripts/publish_r2_release.py:130-130 | The order of names: a proper prefix comes first, otherwise the first differing character decides |
| ReleaseListing.SortSorts | codex/.github/scripts/publish_r2_release.py:130-130 | The list is in ascending order of file name and a permutation of the kept assets |
| ReleaseListing.OrderOfReplyFree | codex/.github/scripts/publish_r2_release.py:101-130 | Replies with the same items in any order give the same list, when file names are distinct |
| ReleaseListing.ListFit | codex/.github/scripts/publish_r2_release.py:112-130 | The list suits the protocol (distinct file names, none of them `release.json`) exactly if the names' last path components do |
| ReleaseListing.BareListing | codex/.github/scripts/publish_r2_release.py:112-126 | Names that are bare file names always suit it |
| ReleaseListing.SlashedName | codex/.github/scripts/publish_r2_release.py:112-126 | A name such as `dir/release.json` passes the name check and then occupies the metadata key |
| ReconciliationItem.NormalizeSignals | scripts/ascodex_reconciliation.py:70-102 | The loop over the signals computes `SignalsOf`: three well-formed, distinctly named signals, not all zero, or nothing |
| ReconciliationItem.AntiCheatNormal | scripts/ascodex_reconciliation.py:70-102 | An accepted result has three distinctly named signals of non-negative weight, not all zero, and normalising the emitted form again gives the same signals |
| ReconciliationItem.PenaltyIsOnePoint | scripts/ascodex_reconciliation.py:161-190 | A complete penalty has effective score raw minus one within 1e-9 and rewritten score raw minus one within 2e-9 |
| ReconciliationItem.ReasonsIn | scripts/ascodex_reconciliation.py:352-375 | A reason is listed exactly if its condition holds |
| ReconciliationItem.CollectReasons | scripts/ascodex_reconciliation.py:352-375 | The chain of appends produces exactly the applicable reasons, in order |
| ReconciliationItem.CompleteApplies | scripts/ascodex_reconciliation.py:318-330 | The one big condition for an observation holds exactly if no reason applies |
| ReconciliationItem.ObservationIff | scripts/ascodex_reconciliation.py:318-389 | An item is an observation exactly when the reason builder would find nothing; an unknown item never has an empty reason |
| PlatformJson.FirstIs | scripts/ascodex_monitor.py:53-57 | The first key that is present decides, even if it holds null |
| PlatformJson.NestedMeans | scripts/ascodex_monitor.py:77-91 | A field comes from the response itself, else from the first of its three parents, given as an object or as its text, that has a value |
| PlatformJson.StatusMeans | scripts/ascodex_monitor.py:24-31 | The status of a value: unavailable for nothing, false or that word, one of three other words for itself, otherwise present |
| PlatformJson.EvidenceMeans | scripts/ascodex_reconciliation.py:62-67 | Evidence is a truth value or one of the five words, stripped and lower-cased |
| ReconciliationEvidence.RescoreMeans | scripts/ascodex_reconciliation.py:56-59 | A rescore is one of four words and is passed on as that word |
| PlatformJson.NumberMeans | scripts/ascodex_monitor.py:60-64 | A value is a number exactly if it is a finite one, with or without a fraction, and no truth value |
| PlatformJson.FlagMeans | scripts/ascodex_monitor.py:67-74 | A flag is set by true, by any number but zero and by one of five words, stripped and lower-cased |
| ReconciliationEvidence.AntiCheatMeans | scripts/ascodex_reconciliation.py:70-102 | Accepted are exactly three distinctly named signals of non-negative weight, not all zero, under one of the two modes; each is passed on with its name, weight and availability |
| ReconciliationEvidence.PageMeans | scripts/ascodex_reconciliation.py:105-158 | A challenge page is passed on section by section exactly if it does not contradict itself about its share route |
| ReconciliationEvidence.FactsMean | scripts/ascodex_reconciliation.py:285-316 | Every fact of an item from the named fields of the response: scores, penalty with its basis, owner with scope, bundle revision with its rescore word, trace, signals, page, anonymous access |
| ReconciliationEvidence.StateMeans | scripts/ascodex_reconciliation.py:275-389 | An item is an observation exactly if the response proves the score, field by field; otherwise its text lists in order every doubt that there is |
| ReconciliationEvidence.ObservationMeans | scripts/ascodex_reconciliation.py:335-351 | An observation carries the four statuses, the reward and the trace score of the response |
| ReconciliationAttempts.BuildMeans | scripts/ascodex_reconciliation.py:193-389 | An attempt is converted exactly if it is addressed to the request, its scores are in range and its mode can be looked up; the item says what the response says |
| ReconciliationAttempts.IdentityMeans | scripts/ascodex_schema.py:30-108 | An attempt is registered exactly if id, challenge and owner are given and nothing has a wrong type; its id and route come from the named keys |
| ReconciliationAttempts.EntriesMean | scripts/ascodex_reconciliation.py:392-401 | The attempts of a response: a list, the list under the first of five keys that holds one, or the response itself |
| ReconciliationAttempts.PageConverts | scripts/ascodex_reconciliation.py:423-467 | A page is converted exactly if all its attempts are registered for the challenge, no id is doubled and each is convertible; the items say, one by one, what the attempts say; the one error that nobody catches occurs exactly if a mode that cannot be looked up comes before any other mistake |
| ReconciliationPage.PageFacts | scripts/ascodex_reconciliation.py:105-158 | A response whose challenge page contradicts itself about its share route never becomes an observation and its page is not passed on; a page that is passed on says `present` exactly if there is a route |
| ReconciliationPage.ObservationFacts | scripts/ascodex_reconciliation.py:246-389 | An observation has a raw score in 0..100, an effective score in -1..100, a one-point penalty fact whenever the response says that a penalty was applied, unified scope, the expected owner, a completed bundle, a present trace and anti-cheat signals |
| ReconciliationPage.BuildItems | scripts/ascodex_reconciliation.py:423-467 | The two loops return the first problem of the page, otherwise the first failing conversion, otherwise all items; what `ItemsOf` is in terms of the response is said by `ReconciliationAttempts.PageConverts` |
| ReconciliationPage.PageItems | scripts/ascodex_reconciliation.py:439-467 | A converted page has one item per attempt, in order, at positions cursor, cursor + 1 and so on, with pairwise distinct attempt ids that are those of the page |
| ReconciliationRunner.CountApplied | scripts/ascodex_reconciliation_runner.py:208-217 | The loop counts the applied summaries or stops at the first bad one |
| ReconciliationRunner.AcceptedReply | scripts/ascodex_reconciliation_runner.py:190-217 | The replies that are accepted are exactly those that speak for the campaign and challenge, do not go back in version, and give a known fate for each item; the count is the number of items they call applied |
| ReconciliationRunner.RunCycle | scripts/ascodex_reconciliation_runner.py:70-240 | The files of a cycle in order, for each point at which it can fail, and its result; when it ends well is said by `ReconciliationOutcome.CycleSucceeds` |
| ReconciliationRunner.CycleOutcome | scripts/ascodex_reconciliation_runner.py:122-240 | What a successful cycle guarantees to the scheduler: positions from the cursor on, distinct attempts, no more applied than items, a wake asked for exactly if something was applied, no version below the starting one |
| ReconciliationRunner.CycleBatches | scripts/ascodex_reconciliation_runner.py:122-172 | What is handed to the ledger: a non-empty page placed from the cursor on, one item per attempt, under the starting version |
| ReconciliationRunner.CycleWrites | scripts/ascodex_reconciliation_runner.py:116-240 | A cycle itself never writes the state file nor a wake |
| ReconciliationOutcome.CycleSucceeds | scripts/ascodex_reconciliation_runner.py:89-240 | A cycle ends well exactly if the time is not negative, the page is fetched and converted, none of the cycle's own writes before its last fails, and there are no items or the ledger's reply covers them and the last write succeeds too |
| ReconciliationOutcome.CycleFiles | scripts/ascodex_reconciliation_runner.py:116-240 | The files of a cycle, decided from what comes in; the last one after a batch is the run file with status `batch_complete` and the version that the reply names |
| ReconciliationOutcome.CycleCrashes | scripts/ascodex_reconciliation_runner.py:208-217 | A failure escapes the scheduler exactly for a mode or an item status that cannot be looked up in a set |
| ReconciliationRunner.Disk.Put | scripts/ascodex_reconciliation_runner.py:116-145 | One atomic file replacement: appended to the history, and the state file and wakes are those of the history |
| ReconciliationScheduler.WriteChiefWake | scripts/ascodex_reconciliation_scheduler.py:126-158 | Writes one wake under the digest of its identity |
| ReconciliationScheduler.OneCycle | scripts/ascodex_reconciliation_scheduler.py:223-311 | One pass of the loop: writes, next state, report and how the loop goes on, on each path including the exceptions that are not caught |
| ReconciliationScheduler.RunScheduledCycles | scripts/ascodex_reconciliation_scheduler.py:161-323 | The whole run: everything it writes, in order, and how it ends, including refused starts that write nothing |
| SchedulerHistory.MaterialInjective | scripts/ascodex_reconciliation_scheduler.py:136-139 | The text whose digest names a wake determines campaign, challenge, stream, version and response digest, when these are free of NUL |
| SchedulerHistory.HistoryGood | scripts/ascodex_reconciliation_scheduler.py:161-323 | Over all histories of runs cut at any write and restarted, every write satisfies the invariant of its kind |
| SchedulerHistory.BeginMeans | scripts/ascodex_reconciliation_scheduler.py:181-221 | What a run starts from: the saved state if there is one, bound to this challenge and context, with valid counters |
| SchedulerSteps.RunStarts | scripts/ascodex_reconciliation_scheduler.py:181-221 | A run starts exactly with non-blank names, 63-bit counters, one cycle or an interval of one second to one hour, the monitor context of the challenge, and no state file or its own; a fresh state has the given cursor and version |
| SchedulerSteps.FailedStep | scripts/ascodex_reconciliation_scheduler.py:246-262 | A failed cycle changes only the report fields of the state, is recorded and stops the run; an escaping error saves nothing |
| SchedulerSteps.CompletedStep | scripts/ascodex_reconciliation_scheduler.py:264-311 | After a cycle that ends well the cursor moves past the items or past an empty page, the version is the reply's, the wake names campaign, challenge, stream, version and digest; unless these counters cannot be saved: then the run ends with an error and the state is as before |
| SchedulerSteps.RunIsAChain | scripts/ascodex_reconciliation_scheduler.py:223-323 | A run is a chain of such cycles: each starts in the state that the one before it left, and writes and reports follow each other |
| SchedulerSteps.EndingMeans | scripts/ascodex_reconciliation_scheduler.py:313-323 | The caller gets the exception that ended the run, or all reports with the last state, marked as failed exactly if a cycle failed |
| SchedulerTheorems.WakeOnDisk | scripts/ascodex_reconciliation_scheduler.py:276-301 | At every crash point, a positive recorded wake version has its wake file on disk, for the same campaign and challenge |
| SchedulerTheorems.StateAccepted | scripts/ascodex_reconciliation_scheduler.py:52-89 | Every state ever persisted has counters the next start accepts, and a start for the same identity resumes from it |
| SchedulerTheorems.PositionsIncrease | scripts/ascodex_reconciliation_scheduler.py:119-123 | Over any number of completed cycles and restarts the item positions strictly increase and stay below the saved cursor; the state counts the completed cycles |
| SchedulerTheorems.BatchesAligned | scripts/ascodex_reconciliation_scheduler.py:225-245 | At every crash point, a batch handed to the ledger starts at the cursor and version of the state file as it is at that moment |
| SchedulerTheorems.IssuedToLedger | scripts/ascodex_reconciliation_scheduler.py:281-301 | The items counted by a saved state are those last handed to the ledger |
| SchedulerBatches.BatchesAscendExactly | scripts/ascodex_reconciliation_scheduler.py:119-123 | Over all batches handed to the ledger in any history of crashes, failures and restarts: the positions ascend exactly if the cycles completed between two batches take up the positions of the earlier one |
| SchedulerBatches.AscendIffSaved | scripts/ascodex_reconciliation_scheduler.py:225-301 | While no completed page is empty: exactly if each batch with a later one is followed by the save that completes its cycle before the next batch |
| SchedulerWitness.RefusedTwice | scripts/ascodex_reconciliation_scheduler.py:246-262 | A ledger that refuses a batch, and a second run: the same batch is handed over again at the same positions, for every page |
| SchedulerWitness.PositionsRepeat | scripts/ascodex_reconciliation_scheduler.py:246-262 | A concrete such history of two runs |
| SchedulerTheorems.StepWakes | scripts/ascodex_reconciliation_scheduler.py:263-290 | A cycle writes a wake exactly if it applied something, with the version it advances to, which is higher |
| SchedulerTheorems.RunWakes | scripts/ascodex_reconciliation_scheduler.py:223-311 | In an undisturbed run there are as many wakes as cycles that applied something, with strictly increasing versions above the starting one |
| SchedulerTheorems.WakeFiles | scripts/ascodex_reconciliation_scheduler.py:126-158 | After any history, an undisturbed run writes exactly as many different wake files as it has cycles that applied something, and each of them is on disk at the end with its version |
| SchedulerTheorems.WakeFilesApart | scripts/ascodex_reconciliation_scheduler.py:136-157 | Wakes of different versions have different files |
| SchedulerTheorems.StepReport | scripts/ascodex_reconciliation_scheduler.py:246-311 | A failed cycle changes no counter and is reported; a completed one adds one to the cycle count |
| SchedulerTheorems.FailureIsLast | scripts/ascodex_reconciliation_scheduler.py:246-262 | A failed cycle is the last one of its run, its report shows the unchanged counters, and the saved state counts exactly the completed cycles |
| ChecksumManifest.ParseChecksumManifest | codex/.github/scripts/rusty_v8_module_bazel.py:29-61 | Accepts exactly the manifests whose non-blank lines are all well-formed with distinct names, at least one; the table has exactly their pairs; a rejected line is the first bad one, with what is wrong with it; a manifest is called empty only if all lines are blank |
| ChecksumManifest.LineMeans | codex/.github/scripts/rusty_v8_module_bazel.py:37-54 | What a line of the manifest says: nothing, or two words between white space of which the first is 64 lower-case hexadecimal digits and the second a bare file name, or which of these is wrong |
| ModuleFinditer.ScanIsFinditer | codex/.github/scripts/rusty_v8_module_bazel.py:76-76 | The blocks of the scan are the matches of the block expression, leftmost first and without overlaps: a head line, up to the first closing parenthesis at a line start, with its line break |
| ModuleFinditer.EntriesMean | codex/.github/scripts/rusty_v8_module_bazel.py:72-96 | The entries are what the blocks with a name of the version say, in order and with their places in the text; there is an error exactly if one of them has no path |
| ModuleFinditer.SlugSpelled | codex/.github/scripts/rusty_v8_module_bazel.py:73-74 | The dots of a version become underscores |
| ModuleFinditer.ChosenSpelled | codex/.github/scripts/rusty_v8_module_bazel.py:73-80 | A block named `rusty_v8_146_4_0_aarch64` belongs to version 146.4.0 and not to 146.40 or 14.6.4.0 |
| ModuleMatches.FindMeans | codex/.github/scripts/rusty_v8_module_bazel.py:64-69 | The search finds the leftmost line start behind whose white space the expression matches, and nothing exactly if there is none |
| ModuleMatches.ReadMeans | codex/.github/scripts/rusty_v8_module_bazel.py:66-66 | A field is read exactly where `field`, `=`, a non-empty quoted text and a comma follow each other, with optional white space around the sign |
| ModuleMatches.EndsLineMeans | codex/.github/scripts/rusty_v8_module_bazel.py:66-66 | White space up to a line end matches exactly if it reaches one, and takes the last one that it reaches |
| ModuleMatches.StringFieldMeans | codex/.github/scripts/rusty_v8_module_bazel.py:64-69 | A field has the value at its leftmost match, and none without a match |
| ModuleMatches.EditMeans | codex/.github/scripts/rusty_v8_module_bazel.py:179-196 | The rewriting replaces the leftmost lower-case digest together with the white space behind it; without one it inserts a digest line, indented alike, behind the leftmost path line; without that it raises |
| ModuleScan.JoinScan | codex/.github/scripts/rusty_v8_module_bazel.py:76-76 | The scan cuts the text into pieces that join to the text |
| ModuleScan.Rescan | codex/.github/scripts/rusty_v8_module_bazel.py:76-76 | Any rewriting of blocks that keeps each block's end keeps the segmentation: a new scan of the output finds the rewritten blocks |
| ModuleBlocks.ReplacedBlock | codex/.github/scripts/rusty_v8_module_bazel.py:179-186 | Replacing a digest leaves a block that still ends where it ended |
| ModuleBlocks.InsertedBlock | codex/.github/scripts/rusty_v8_module_bazel.py:188-196 | Inserting a digest line leaves a block that still ends where it ended |
| ModuleFields.FindSplits | codex/.github/scripts/rusty_v8_module_bazel.py:64-69 | The multi-line search splits the text at the first logical line that matches |
| ModuleFields.ReadField | codex/.github/scripts/rusty_v8_module_bazel.py:66-66 | A match has a non-empty quote-free value and starts with the field |
| ModuleEditProofs.ReplaceShape | codex/.github/scripts/rusty_v8_module_bazel.py:180-186 | Which text the substitution leaves: all before the digest field and all after its line end, with the new field between |
| ModuleEditProofs.InsertShape | codex/.github/scripts/rusty_v8_module_bazel.py:188-196 | Which text the insertion leaves: one new line with the same indent after the path line |
| ModuleEditProofs.ReplacedFieldKept | codex/.github/scripts/rusty_v8_module_bazel.py:180-186 | Replacing the digest changes no other field |
| ModuleEditTheorems.DigestSet | codex/.github/scripts/rusty_v8_module_bazel.py:179-196 | After the rewriting the digest reads as the checksum exactly if `ReadsBack` holds of the block; otherwise it is the old non-hexadecimal value |
| ModuleEditTheorems.OtherFieldsAfter | codex/.github/scripts/rusty_v8_module_bazel.py:179-196 | What every other field reads as after the rewriting, exactly: as before, unless a digest is inserted and the closing quote of the path entry opens the field's value; then what counts is the text behind the path entry |
| ModuleEditTheorems.OneLinePath | codex/.github/scripts/rusty_v8_module_bazel.py:188-196 | With a path on one line every other field reads as before |
| ModuleWitnesses.DigestDrifts | codex/.github/scripts/rusty_v8_module_bazel.py:166-217 | Failing family of module files: with a digest that is not lower-case hexadecimal above the path, the update returns and the check refuses its output |
| ModuleWitnesses.BlankLineLost | codex/.github/scripts/rusty_v8_module_bazel.py:179-217 | Failing family of module files: with a blank line below the path, a second update changes the output of the first |
| ModuleWitnesses.FieldLost | codex/.github/scripts/rusty_v8_module_bazel.py:188-217 | Failing family of module files: with a path entry that spans two lines, the update makes another field unreadable |
| ModuleEditTheorems.EditTwice | codex/.github/scripts/rusty_v8_module_bazel.py:179-196 | Rewriting a block twice equals rewriting it once exactly if `Settled` holds: no blank line swallowed later |
| ModuleBazel.RustyV8HttpFiles | codex/.github/scripts/rusty_v8_module_bazel.py:72-96 | The entries of the version with their offsets, or the first entry without a path |
| ModuleBazel.ModuleEntrySetErrors | codex/.github/scripts/rusty_v8_module_bazel.py:111-138 | The errors of the source's table, and none exactly if the paths are distinct, non-empty and those of the manifest |
| ModuleBazel.TableErrorsEmpty | codex/.github/scripts/rusty_v8_module_bazel.py:128-138 | No error from the table exactly if nothing is doubled and both key sets agree |
| ModuleBazel.ModuleChecksumErrors | codex/.github/scripts/rusty_v8_module_bazel.py:141-157 | The list of digest errors, in order |
| ModuleBazel.ChecksumErrorsEmpty | codex/.github/scripts/rusty_v8_module_bazel.py:141-157 | No digest error exactly if every listed entry has the manifest's digest |
| ModuleBazel.ChecksumErrorsMean | codex/.github/scripts/rusty_v8_module_bazel.py:141-157 | A digest error is listed exactly if it names an entry of the manifest's files whose digest is missing, or is another one, with what was found and what was expected |
| ModuleBazel.AcceptedMeans | codex/.github/scripts/rusty_v8_module_bazel.py:166-176 | The check accepts exactly if the version's entries are duplicate-free, non-empty and map their paths to digests as the manifest does |
| ModuleBazel.CheckModuleBazelText | codex/.github/scripts/rusty_v8_module_bazel.py:166-176 | The check returns exactly on the texts so accepted |
| ModuleUpdate.Splice | codex/.github/scripts/rusty_v8_module_bazel.py:208-217 | The loop over offsets joins unchanged stretches and rewritten blocks |
| ModuleUpdate.SpliceMeans | codex/.github/scripts/rusty_v8_module_bazel.py:208-217 | Splicing by offsets is the same as rewriting the segments of the scan in place |
| ModuleUpdate.UpdateModuleBazelText | codex/.github/scripts/rusty_v8_module_bazel.py:199-217 | For every text: nothing if an entry, the file sets or a block object, otherwise the text with the selected blocks rewritten in place |
| ModuleUpdate.UpdateReturns | codex/.github/scripts/rusty_v8_module_bazel.py:199-217 | The update returns exactly if the files agree with the manifest and every selected block can be rewritten |
| ModuleUpdate.UpdatePreserves | codex/.github/scripts/rusty_v8_module_bazel.py:199-217 | A new scan of the output finds the same segments; text outside the version's blocks is kept character by character; inside them name and path read as before, the digest as `UpdateThenCheck` needs it and every other field as `OtherFieldsAfter` says |
| ModuleUpdate.UpdateThenCheck | codex/.github/scripts/rusty_v8_module_bazel.py:166-217 | After an update the check accepts exactly if every selected block reads back; the entry set always agrees |
| ModuleUpdate.LowerCaseChecks | codex/.github/scripts/rusty_v8_module_bazel.py:166-217 | For every text whose selected digests are absent or lower-case hexadecimal, the check accepts the output of the update |
| ModuleUpdate.UpdateTwice | codex/.github/scripts/rusty_v8_module_bazel.py:199-217 | Updating twice equals updating once exactly if all selected blocks are settled |
| ReleaseVersion.PythonInjective | codex/sdk/python/release_version.py:10-12 | Different versions have different PEP 440 texts |
| ReleaseVersion.ReleaseVersionIs | codex/sdk/python/release_version.py:49-65 | The printer turns the text of each version into its Rust form |
| ReleaseNormal.AcceptedExactly | codex/sdk/python/release_version.py:68-82 | The normaliser accepts exactly the texts of the listed shapes and returns the PEP 440 text of their version |
| ReleaseNormal.AcceptedTurns | codex/sdk/python/release_version.py:75-78 | Each accepted shape is turned into the text of its version by the four substitutions in sequence |
| ReleaseNormal.TurnedAccepted | codex/sdk/python/release_version.py:75-82 | Conversely whatever the substitutions turn into a normal text has one of the accepted shapes |
| ReleaseTags.NormalizeRust | codex/sdk/python/release_version.py:45-82 | Rust form, tag and normal form of a version all normalise to its normal form |
| ReleaseTags.PrintThenNormalize | codex/sdk/python/release_version.py:45-82 | For every accepted input: normalising is idempotent, and normalising the printed version or tag gives back the normalised input |
| ReleaseTags.SameTag | codex/sdk/python/release_version.py:45-65 | Two accepted inputs give the same tag exactly if they normalise alike |
| ReleaseTags.ResolvedTag | codex/sdk/python/release_version.py:35-46 | Every runtime version resolves to a tag of the publisher's grammar, and the tag normalises back to it |
| ReleaseTags.TagsApart | codex/sdk/python/release_version.py:35-46 | Different runtime versions give different tags |
| ReleaseTags.PublisherVersion | codex/.github/scripts/publish_r2_release.py:37-40 | A version of the publisher's grammar is accepted by the normaliser exactly if it ends in a digit, and then printing gives it back |
| ReleaseTags.StrayAccepted | codex/sdk/python/release_version.py:75-78 | Concrete surprise: a text such as `1.2-bet-alpha3` is accepted as the beta `1.2b3` |
| ReleaseSpellings.BaseMeans | codex/sdk/python/release_version.py:10-12 | A base is digits and single dots with a digit at both ends |
| ReleaseSpellings.NormalizerSpelled | codex/sdk/python/release_version.py:68-82 | What the normaliser gives, literally: `b-rc.d` and `b-rcd` become `brcd`, `b-alpha.d.e` becomes `bad.poste`, and so on, with and without `v` or `rust-v` in front |
| ReleaseSpellings.OnlySpellings | codex/sdk/python/release_version.py:68-82 | Whatever is accepted has, stripped and without its prefix, one of the literal spellings, and the literal normal form that belongs to it |
| ReleaseSpellings.TagSpelled | codex/sdk/python/release_version.py:35-65 | The tags, literally: a pre-release gets its full word, a dot and its number, an alpha hotfix a second number; a post-release of anything else keeps its spelling |
| ReleaseSpellings.ResolveSpelled | codex/sdk/python/release_version.py:35-46 | A version of three numbers, its alphas and their post-releases resolve to these literal tags |
| ReleaseSpellings.ResolvesOnly | codex/sdk/python/release_version.py:35-46 | No other text resolves |
| ReleaseSpellings.TagRecognized | codex/.github/scripts/publish_r2_release.py:37-40 | A recogniser that reads a tag number by number accepts exactly the tags of the grammar |
| BazelWrapper.StartupOnce | codex/.github/scripts/run_bazel_with_buildbuddy.py:33-63 | Nothing is injected exactly if no wanted startup option is missing, and in front of the same arguments the injected options leave nothing to inject |
| BazelWrapper.WithoutKey | codex/.github/scripts/run_bazel_with_buildbuddy.py:118-187 | Without a key: remote configurations before `--` dropped, cache options added before `--`, the rest unchanged |
| BazelWrapper.WithKey | codex/.github/scripts/run_bazel_with_buildbuddy.py:131-181 | With a key: the two remote options directly after the command, cache options before `--`, the rest unchanged; the options themselves are spelled out by `BazelOptions.KeySpelled` |
| BazelWrapper.PayloadKept | codex/.github/scripts/run_bazel_with_buildbuddy.py:131-181 | The part from `--` on is unchanged exactly if there is no key or the command comes before `--` |
| BazelWrapper.CallerRecovered | codex/.github/scripts/run_bazel_with_buildbuddy.py:131-181 | Erasing what was inserted, at positions known from the input, gives back the caller's list, without remote configurations before `--` when there is no key |
| BazelWrapper.NoKeyFixed | codex/.github/scripts/run_bazel_with_buildbuddy.py:118-187 | Without a key the wrapper applied to its own output changes nothing, startup options included |
| BazelWrapper.KeyGrows | codex/.github/scripts/run_bazel_with_buildbuddy.py:144-159 | With a key it is not a fixed point: each further application adds two arguments |
| BazelOptions.ConfigSpelled | codex/.github/scripts/run_bazel_with_buildbuddy.py:69-115 | The configuration is an OpenAI one exactly for a workflow run of openai/codex that is no pull request or has a proven non-fork head, and ends in `-rbe` exactly if one of the four CI configurations stands before `--` |
| BazelOptions.KeySpelled | codex/.github/scripts/run_bazel_with_buildbuddy.py:131-187 | With a key: directly behind the command that configuration, then the header with the key, and the cache options in front of the separator, all in literal texts |
| BazelOptions.NoKeySpelled | codex/.github/scripts/run_bazel_with_buildbuddy.py:118-187 | Without a key: the list without what is dropped before the separator, with the cache options in front of it |
| BazelOptions.Dropped | codex/.github/scripts/run_bazel_with_buildbuddy.py:118-130 | What is dropped, argument by argument: exactly the four CI configurations |
| BazelOptions.StartupSpelled | codex/.github/scripts/run_bazel_with_buildbuddy.py:33-63 | In front of everything the output root and, on GitHub, the option against the repository cache, each exactly if wanted and not given |
| BazelOptions.CommandNeeded | codex/.github/scripts/run_bazel_with_buildbuddy.py:134-139 | There is no command line exactly if every argument starts with a dash |
| CleanupPlan.Maxima | bohrium-kb/tools/cleanup_redundant_attempts.py:105-108 | The dictionary has each occurring challenge with its best score, at least zero |
| CleanupPlan.Keepers | bohrium-kb/tools/cleanup_redundant_attempts.py:109-112 | Exactly the authors with an attempt at a challenge maximum |
| CleanupPlan.MakePlan | bohrium-kb/tools/cleanup_redundant_attempts.py:105-127 | The plan is the attempts of all other authors, in order, and the max-score guard never fires |
| CleanupPlan.PlanMeans | bohrium-kb/tools/cleanup_redundant_attempts.py:105-127 | Planned are exactly the attempts, each as often as it occurs, of authors all of whose attempts are at least 0.000001 below zero or below another attempt at the same challenge |
| CleanupPlan.MaximaConserved | bohrium-kb/tools/cleanup_redundant_attempts.py:105-127 | Deleting any part of the plan leaves every challenge's maximum |
| CleanupPlan.KeepersConserved | bohrium-kb/tools/cleanup_redundant_attempts.py:109-127 | Deleting any part of the plan leaves the set of keepers |
| CleanupPlan.Replan | bohrium-kb/tools/cleanup_redundant_attempts.py:105-127 | Planning again after a partial execution plans exactly the deletions not yet done, in order |
| CleanupPlan.TopSurvives | bohrium-kb/tools/cleanup_redundant_attempts.py:105-127 | A challenge keeps one of its best attempts exactly if one of their authors is a keeper, which a score above minus epsilon guarantees |
| CleanupPlan.NegativeTopLost | bohrium-kb/tools/cleanup_redundant_attempts.py:107-108 | Concrete failing family: the best attempt of a challenge with negative scores only is planned for deletion |
| CleanupPlan.Execute | bohrium-kb/tools/cleanup_redundant_attempts.py:140-154 | Deletes exactly the planned attempts whose author has a token and whose deletion is accepted, and counts successes and failures |
| CleanupPlan.CleanUp | bohrium-kb/tools/cleanup_redundant_attempts.py:105-154 | The whole program: without `--execute` nothing is deleted, with it exactly the planned attempts whose author has a token and whose deletion is accepted; every challenge maximum and every keeper stays, and the next plan is exactly what is left of this one |
| TraceBuilder.RoundsPaired | scripts/ascodex_trace_builder.py:141-149 | Every result directly follows the call with its id |
| TraceBuilder.RoundsDistinct | scripts/ascodex_trace_builder.py:141-149 | The call ids are pairwise distinct, for any number of commands |
| TraceRun.Tracer.Emit | scripts/ascodex_trace_builder.py:113-117 | Appends the step under the next order |
| TraceRun.EmitRounds | scripts/ascodex_trace_builder.py:139-149 | The loop emits the opening thought and, for each command, call, result and perhaps thought |
| TraceRun.HasAnchor | scripts/ascodex_trace_builder.py:151-161 | Finds out whether a result is an anchor |
| TraceRun.FindWindow | scripts/ascodex_trace_builder.py:163-171 | The window search, where it is reached, always ends with the first 80 characters |
| TraceRun.Anchor | scripts/ascodex_trace_builder.py:151-175 | The anchor pass leaves the steps of `WithAnchor`: only the last result's body may change |
| TraceRun.AnchoredIff | scripts/ascodex_trace_builder.py:153-161 | A result is an anchor at once exactly if the stripped log has 12 to 80 characters |
| TraceRun.TraceShape | scripts/ascodex_trace_builder.py:139-204 | Orders and ids are contiguous, results follow their calls, call ids are distinct |
| TraceRun.TraceAnchor | scripts/ascodex_trace_builder.py:219-224 | There is a verbatim anchor of 12 to 80 characters exactly if the stripped log has at least 12 |
| TraceRun.TraceThoughts | scripts/ascodex_trace_builder.py:215-217 | There are three long thoughts exactly if there are two commands or more |
| TraceRun.Normalize | scripts/ascodex_trace_builder.py:201-206 | Renumbering changes nothing, and the first banned body is reported |
| TraceRun.ChecksPass | scripts/ascodex_trace_builder.py:208-224 | Each final check passes exactly under its condition on the input |
| TraceRun.BuildTrace | scripts/ascodex_trace_builder.py:101-228 | The whole program ends as `OutcomeOf` says, with each of its ways to stop |
| TraceRun.WrittenExactly | scripts/ascodex_trace_builder.py:101-228 | A trace is written exactly if there are at least two commands, the stripped log has at least 12 characters and no body is banned; what is written has contiguous orders, ids and times, carries the k-th command in its k-th call, has each result directly after its call under the same distinct id, and has an anchor |
| TraceRun.EndsExactly | scripts/ascodex_trace_builder.py:101-228 | How a run ends otherwise: on an empty log, without commands, at the first banned body, for one command only, or for a log of fewer than 12 characters |
| TracePlaces.TracePlaced | scripts/ascodex_trace_builder.py:139-204 | Which step stands where: the opening thought; for each command its call under its number, its result with the log, and for the first three a thought; the artifact; the decision, which alone costs something |
| TracePlaces.TwoDigitsMeans | scripts/ascodex_trace_builder.py:142-142 | Numbers in ids are decimal with at least two digits |
| TraceProse.NarrativeIn | scripts/ascodex_trace_builder.py:123-138 | The prose shows a non-ASCII character exactly if the problem or the first command does, and not more |
| TraceAudit.AuditTrace | bohrium-kb/tools/submit_gate_audit.py:140-169 | The audit loop gives the same verdict as the sets of call and result ids, the first failing event and the order of the times taken as a whole |
| TraceAudit.PassedMeans | bohrium-kb/tools/submit_gate_audit.py:140-169 | The audit accepts exactly non-empty event lists without an identified result that says nothing, in which every identified call has a result and every identified result a call, and times never fall |
| TraceAudit.TraceEventsPass | bohrium-kb/tools/submit_gate_audit.py:148-169 | Every built trace passes all event checks of the audit |
| TraceAudit.CleanFile | bohrium-kb/tools/submit_gate_audit.py:143-145 | A file of steps without the three separators reads back as these steps |
| TraceAudit.SeparatedFile | bohrium-kb/tools/submit_gate_audit.py:143-147 | A file with one of U+0085, U+2028, U+2029 in a step is not valid JSONL to the audit |
| TraceAudit.CodecExists | bohrium-kb/tools/submit_gate_audit.py:143-145 | For every job there is a way of writing and reading steps with the properties that the verdict needs |
| TraceAudit.AuditVerdict | bohrium-kb/tools/submit_gate_audit.py:140-169 | The audit of a written file passes exactly if the job is free of the three separators; otherwise it cannot read the file |

## Left out

- ReleaseFinalize.Finalize: asks for a list without clashing file names; what runs over other lists can do is covered by the state machine.
- ReleaseFailures.FailureIsARun: relates the stores that runs leave; the order of the method's own uploads is one of the machine's.
- ReleasePublisher.Bucket.Verify: the CRC64 header test is taken to pass, since every upload asks for that checksum.
- ReleaseSafety.ChannelSafety: does not order versions; a slower run of an older tag may move a channel back, as in the script.
- ReleaseListing.GetReleaseMetadata: JSON parsing of the reply is left out; items arrive as optional fields.
- ReleasePublisher.Bucket.Upload: error texts of the store client and the distinction of transport errors are left out; in the state machine they are faults.
- ReconciliationRunner.RunCycle: the mode that only writes a manifest, reading a response from a file, and process start-up of the ledger tool are left out; the scheduler never uses the first two.
- SchedulerTheorems.WakeOnDisk: does not claim a wake for a batch whose cycle crashed before the wake was written.
- ReconciliationPage.BuildItems: conversion of integers too large for a float is left out.
- ChecksumManifest.ParseChecksumManifest: takes the manifest as lines; reading the file and a missing file are left out.
- ModuleUpdate.UpdateModuleBazelText: errors are values, not their texts; listing all versions in a file and the command line are left out.
- ModuleBazel.ModuleEntrySetErrors: gives the errors as a set; their sorting is left out.
- BazelWrapper.WithKey: reading the event file of a pull request is left out; what it says about a fork is a parameter.
- CleanupPlan.Execute: the deletions are taken in plan order, not sorted by author; which ones succeed is a parameter by attempt, so the set deleted is the same.
- TraceRun.BuildTrace: time stamps are seconds since the epoch, and the regular expression for banned content is a parameter.
- TraceAudit.AuditTrace: only the checks of the events; the fields of the payload before them, such as predicted score, cost and provenance paths, are left out.
- Monitor, leaderboard, contract and packaging scripts: mostly one-function classification or file copying.
- Sandbox smoke tests, linters, formatters and the readme table of contents: flat checks and plumbing.
- The Rust ledger and guard: nothing is assumed of them beyond what the runner checks.
