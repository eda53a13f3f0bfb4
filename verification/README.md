# Verified model of the operations daemon

This project models the parts of the daemon whose correctness depends on many steps going together, and proves what
those parts promise. `dafny verify dfyconfig.toml` checks everything.

## What is modelled

- **Operation engine** (`Operations.dfy`, `Engine.dfy`, `Retry.dfy`). The store is a class whose methods change the
  operations, lock and schedule-run tables as the SQL transactions do, each proved to be a function on the database.
  Every call on the store is one step; the theorems of `Engine` hold after every interleaving of steps. Identifiers,
  clock readings and jitter are parameters, and an identifier that is already taken makes the insert fail.
- **Scheduler** (`Schedule.dfy`, `Scheduler.dfy`). A catch-up pass is a sequence of transactions with a crash possible
  between any two and other actors at work in between. The class is proved to be a run of that machine.
- **Deployment** (`Host.dfy`, `Nginx.dfy`, `Catalog.dfy`, `DeploySlot.dfy`, `Deploy.dfy`, `Slots.dfy`, `Releases.dfy`,
  `Lifecycle.dfy`).
  The machine is the managed nginx file, the loaded configuration, a process per slot, current pointers and release
  directories. Whether a call succeeds is decided by an oracle that knows its number and what it asks for, so every
  theorem is about every pattern of failures, and a pattern that breaks a property is an oracle one can write down. A
  call that reports failure has had no effect; only a reload may have been carried out although it reported failure,
  and `Truthful` excludes that where a theorem needs it. Database writes can fail too; `Reliable` says that none does.
  Starting a running unit is a no-op, as in the runtime adapter. A daemon that dies during a deployment is one of the
  patterns: from that call on every call fails and every write is lost.
- **Backup stream** (`Codec.dfy`). Byte-level frames over an ideal cipher: opening succeeds on exactly the
  (index, nonce, ciphertext) triples sealed for the stream at hand.
- **Retention and prune** (`Retention.dfy`, `Prune.dfy`). The plan by rank in recency, its execution call by call
  over blobs that backups share, and the backups table over its whole life.
- **Fleet, file backups, managed file, bounded streams** (`Fleet.dfy`, `Files.dfy`, `Render.dfy`, `Streams.dfy`).

`Basics.dfy` and `Sorting.dfy` hold the shared vocabulary and the theory of sorting by a total order, which stands for
the library sort the daemon calls.

## Where the code differs from what it says

- Retry delays are computed in 64 bits. A delay is within twenty percent of the documented `min(base * 2^(attempt-1), max)`
  for every attempt the policy allows and every draw exactly when no doubled value reaches 2^62 ns and the longest delay
  times 1.2 stays below 2^63 ns (`Retry.DelaysAreAsDocumented`). `Retry.OverflowingPolicy` and `Retry.JitterOutOfRange` are
  policies that are accepted and whose delay is served as 0; a cap of 4 611 686 018 seconds rules both out
  (`Retry.SmallCapSuffices`). Seconds beyond 292 years wrap when they are read (`Retry.SecondsAreExact`).
- The truncation flag of `DueMoments` also comes up when exactly the limit is due
  (`Schedule.TruncationFlagWithNothingLeftOut`).
- A successful blue-green deployment runs the new release exactly when nothing else was running in the target slot: a
  process left there (an earlier deployment rolled back after the switch leaves one) survives, because starting it is a
  no-op (`DeploySlot.Deployer.ApplySlot`).
- On the single slot the same happens as long as no release is active: a process that runs nevertheless (a first release
  that failed unnoticed, or whose daemon died before recording it) is not stopped, is found ready, and passes for the new
  release (`Deploy.TakesLeftoverForRelease`). A success runs the new release exactly when some release was active or no other
  process was there (`Deploy.Deployer.ApplySingle`); from the first activation on the reports can be trusted
  (`Deploy.LastReportTells`). In that state "no version was running before" is false too (`Deploy.SaysNothingWasRunning`).
- A daemon that dies between installing nginx's file and reloading leaves the two different. Reconciliation follows the
  file, so the next deployment goes to the slot nginx still has loaded; a release that does not get ready there takes that
  slot down, and the error says that traffic was not affected. A deployment after a reconciliation keeps traffic
  answered under every truthful pattern of failures exactly when both files point at the same slot or, one of them missing,
  under the conditions of `Lifecycle.UnbrokenByTheFiles` (`Lifecycle.Redeploy`, `Lifecycle.Interrupt`). A crash at any other
  call is harmless once reconciled (`Lifecycle.Crash`).
- Undoing a first blue-green deployment after the switch stops the slot but leaves nginx pointing at it, although the
  comment says the entrance is withdrawn (`DeploySlot.TellsTheTruth`).
- A failed rollback to a superseded release deletes that release's directory, while its row keeps saying that it has one and
  can be rolled back to (`Lifecycle.LoseDirectory`; `DeploySlot.FailureKeepsBacked` says exactly when this happens).
- A single-slot rollback that failed is reported as "no version is running". That is true as long as no stop fails; a release
  that does not get ready and cannot be stopped goes on running (`Deploy.ReportsNothingRunning`).
- "Nothing changed" after a failed single-slot deployment is false when a first release without files of its own was started
  where nothing ran (`Deploy.ReportsNoChange`); otherwise it is true of the process and the pointer, while the unit file can
  already be the new release's (`Deploy.Deployer.ApplySingle`).
- A managed file read under another manifest gives the slot it was written for exactly when that manifest starts the
  slot on the same port; the upstream's name plays no part (`Render.ParseUnderAnotherManifest`).
- `keepDays` is multiplied out in 64 bits, exactly up to 106 751. From 106 752 to 213 503 the cutoff lies in the future and
  the rule keeps nothing; beyond, it wraps again, and 213 600 days keep what was finished within 97 (`Retention.CutoffIsExact`,
  `Retention.FutureCutoff`, `Retention.TwiceWrappedCutoff`). A policy with generation rules only loses every finished backup
  (`Retention.GenerationsOnlyDeletesEverything`).
- A dry run reports less than the real run frees exactly when all the backups that share some content are planned
  (`Prune.DryRunIsHonest`).
- Restoring in place follows links. A target that has become a link to some file gets that file overwritten
  (`Files.LinkIsFollowed`); entries land at their own places exactly when no target and nothing above one is a link
  (`Files.EntriesLandAtTheirTargets`).
- A write to the frame writer after its Close is not refused, and spoils the stream once it exceeds one buffer
  (`Codec.FrameWriter.ReadsBackUnlessWrittenLate`).

## Model

| member | source | states |
|---|---|---|
| Operations.Store.CreateOperation | internal/adapters/sqlite/store.go:90-149 | replays an equal key, rejects a different request under the key, rejects a busy resource, otherwise adds exactly the new row |
| Operations.Store.SelectNext | internal/adapters/sqlite/store.go:200-224 | the due pending operation on a free resource that is oldest by creation time and id, or none exists |
| Operations.Store.ClaimNextPending | internal/adapters/sqlite/store.go:200-291 | claims that operation and takes its lock; under the invariant it comes back empty only when no pending operation is due |
| Operations.Store.Finish | internal/adapters/sqlite/store.go:295-377 | settles a running operation, releases its own lock and inserts the next attempt, all or nothing; anything not running is untouched |
| Operations.Store.CancelPending | internal/adapters/sqlite/store.go:381-432 | cancels exactly when the operation is pending |
| Operations.Store.ListRunning | internal/adapters/sqlite/store.go:556-575 | every running operation once, oldest first |
| Operations.Store.RecoverRunning | internal/adapters/sqlite/store.go:549-623 | fails every running operation with its planned retry in one transaction, or changes nothing |
| Operations.Store.InsertOperation | internal/adapters/sqlite/store.go:639-653 | the insert succeeds exactly when id, key and retry reference allow it |
| Operations.Store.HasIncompleteOperation | internal/adapters/sqlite/store.go:778-791 | whether some operation on the resource is pending or running |
| Operations.Store.DispatchScheduledRun | internal/adapters/sqlite/schedule.go:131-215 | one run record per moment, with the operation it names or the refusal, in one transaction |
| Operations.Store.RecordMissedRun | internal/adapters/sqlite/schedule.go:218-236 | records a missed moment once |
| Operations.NothingDueWhenNothingClaimable | internal/adapters/sqlite/store.go:200-291 | under the invariant no due pending operation is ever held back by a lock |
| Engine.StepKeepsGood | internal/adapters/sqlite/store.go:90-149 | every call keeps: one incomplete operation per resource, locks exactly for running operations, unique keys, run records matching operations, and the retry forest |
| Engine.EveryRunIsGood | internal/adapters/sqlite/store.go:90-432 | the same after every interleaving of create, claim, finish, cancel, recover and dispatch |
| Engine.ClaimMissesNothing | internal/adapters/sqlite/store.go:200-291 | in every reachable state a claim is empty only if nothing is due |
| Engine.StepExtends | internal/domain/operation.go:52-59 | rows only move along the status machine and run records never change |
| Engine.FinishedIsFinal | internal/domain/operation.go:31-59 | a finished operation and a run record stay as they are, whatever runs later |
| Engine.RecoverEvolves | internal/adapters/sqlite/store.go:549-623 | recovery fails exactly the listed operations, touches no other and adds only pending ones |
| Engine.RecoveryClearsRunning | internal/adapters/sqlite/store.go:549-623 | after recovery nothing runs, no lock is held, and exactly the interrupted operations have failed |
| Engine.ChainCountsAttempts | internal/adapters/sqlite/store.go:686-733 | along automatic retries the attempt counts up by one and the policy stays |
| Engine.ChainsAreBounded | internal/application/worker.go:508-547 | automatic retries form chains of at most maxAttempts operations without branches, each but the last failed |
| Engine.OnlyListedFailuresRetry | internal/application/worker.go:508-547 | a finish adds another attempt only after a failure the policy lists, and schedules it after the computed delay |
| Retry.NextDelay | internal/domain/retry.go:191-234 | the delay is the capped doubling with jitter, each step in 64 bits, and always between 0 and the cap |
| Retry.UnjitteredIsExact | internal/domain/retry.go:191-215 | before jitter the documented formula holds for every attempt the policy retries if and only if no value doubled on the way reaches 2^62 |
| Retry.OverflowingPolicy | internal/domain/retry.go:31-45 | an accepted policy whose second delay wraps around and is served as zero, whatever is drawn |
| Retry.SmallCapSuffices | internal/domain/retry.go:117-145 | with a cap of at most 4 611 686 018 s every delay is as documented |
| Retry.DelaysAreAsDocumented | internal/domain/retry.go:183-234 | every delay is within twenty percent of the documented one if and only if no doubling overflows and the longest one times 1.2 is below 2^63 |
| Retry.JitterOutOfRange | internal/domain/retry.go:223-232 | an accepted policy without overflow whose jittered delay converts out of range and is served as zero |
| Retry.SecondsAreExact | internal/domain/retry.go:31-36 | the durations of a policy are the submitted seconds exactly within 292 years |
| Retry.JitterStaysInBand | internal/domain/retry.go:217-233 | a delay stays within twenty percent of the unjittered one, and below the cap, for every draw if and only if 1.2 times it is below 2^63 |
| Retry.NarrowingOnlyRemoves | internal/domain/retry.go:148-181 | a policy's own list can only remove error codes from those that are retried by default |
| Schedule.DueMoments | internal/domain/schedule.go:239-262 | the enumeration of due moments up to the limit, and when the truncation flag comes up |
| Schedule.DueIsOrbit | internal/domain/schedule.go:239-262 | below the limit the enumeration is exactly the planned moments up to the bound |
| Schedule.TruncationFlagMeaning | internal/domain/schedule.go:239-262 | the flag comes up exactly when at least limit moments are due |
| Schedule.TruncationFlagWithNothingLeftOut | internal/domain/schedule.go:226-262 | for every interval there is a pass that is flagged although nothing was left out |
| Scheduler.ChooseDispatchedMoments | internal/application/scheduler.go:217-229 | the moments to dispatch: a single recent one, or the last under run-once, else none |
| Scheduler.EveryRunIsSound | internal/application/scheduler.go:135-211 | after every run with crashes and other actors the records cover exactly the planned moments handled so far |
| Scheduler.OneOperationPerMoment | internal/application/scheduler.go:161-198 | two operations never come from the same moment, and its one record names its operation |
| Scheduler.CompletedPassRecordsEverything | internal/application/scheduler.go:135-211 | a completed pass leaves the next moment in the future, at most one new operation, and, never truncated, exactly one record for every planned moment so far |
| Scheduler.Scheduler.HandleMoment | internal/application/scheduler.go:161-198 | one moment is one transaction of the pass |
| Scheduler.Scheduler.ProcessSchedule | internal/application/scheduler.go:135-211 | the pass is a run of those transactions wherever it dies, and has caught up when it completes |
| Host.Machine.Start | internal/adapters/runtime/systemd/systemd.go:280-301 | starts what the pointer and unit name, unless a process is there already, which then stays |
| Host.Machine.Stop | internal/adapters/runtime/systemd/systemd.go:304-317 | stops exactly the given slot |
| Host.Machine.Activate | internal/adapters/release/local/local.go:148-190 | moves one slot's pointer to an existing directory |
| Host.Machine.Remove | internal/adapters/release/local/local.go:197-233 | deletes a directory only when no pointer names it |
| Host.Machine.MaterializeIfMissing | internal/application/deploy.go:475-500 | afterwards the directory exists, unpacked only if it was missing |
| Nginx.Adapter.Apply | internal/adapters/nginx/nginx.go:201-269 | success installs and loads the slot; every error but a failed reload leaves the loaded configuration alone; "traffic did not move" is said only when the old file is loaded again; traffic never meets a dead slot |
| DeploySlot.NextSlot | internal/application/deploy_slot.go:31-36 | the target is never the serving slot |
| DeploySlot.Deployer.BringUp | internal/application/deploy_slot.go:175-194 | the target slot gets the release unless a process is there already; nothing else is touched |
| DeploySlot.Deployer.SwitchTraffic | internal/application/deploy_slot.go:255-280 | success means the previous release's own configuration is loaded and its slot is up, and no process was replaced |
| DeploySlot.Deployer.TeardownSlot | internal/application/deploy_slot.go:284-292 | stops the slot and withdraws its pointer, and touches no other |
| DeploySlot.Deployer.Undo | internal/application/deploy_slot.go:106-126 | what the failure path achieves for each of the cases switched, started and untouched |
| DeploySlot.Deployer.FailDeploy | internal/application/deploy_slot.go:106-173 | which of the outcomes is reported, and that the failed slot and release are recorded |
| DeploySlot.Deployer.DrainAndStop | internal/application/deploy_slot.go:298-325 | the old slot is recorded as stopped only when it was stopped |
| DeploySlot.Deployer.ApplySlot | internal/application/deploy_slot.go:43-249 | from every state and for every pattern of failures: every outcome tells the truth about the traffic (success and rollback only onto a slot found ready), the timeline names the slot it is on, from a safe state traffic always meets a live process (undoing a first deployment excepted), the old slot keeps its process until success, the record changes only on success, when a success runs the new release's own process, with or without files, and where two particular failures end; when nothing fails it succeeds |
| DeploySlot.Deployer.Observe | internal/application/deploy_slot.go:334-368 | after a watched switch the slot has been found ready since the reload, and only then the observation is in the timeline |
| DeploySlot.SuccessKeepsBacked | internal/application/deploy_slot.go:220-232 | a success leaves every release that can be rolled back to with its recorded directory on disk |
| DeploySlot.FailureKeepsBacked | internal/application/deploy_slot.go:138-147 | a failure does so if and only if the failed release was not being rolled back to or its directory is still there |
| DeploySlot.FailureKeepsActive | internal/adapters/sqlite/catalog.go:404-461 | after a failed deployment the active release is the one it was, and the failed one has no directory unless it had been live before |
| Deploy.Deployer.RestorePrevious | internal/application/deploy.go:503-528 | success means the previous release runs under its own spec, with the pointer on it if it brings files; a process that cannot be stopped stays |
| Deploy.Deployer.TeardownFirstDeploy | internal/application/deploy.go:534-544 | success means nothing runs and no pointer is left |
| Deploy.Deployer.ApplySingle | internal/application/deploy.go:310-460 | from every state and for every pattern of failures: what each report says about the process and the active release; success runs the new release if and only if one was active or no other process was there; rolled back runs the previous one; when "no change" is true and when not; what a failed rollback leaves and when nothing runs then; the rows change only on success; when nothing fails it succeeds, and a release that merely does not get ready is rolled back |
| Deploy.TakesLeftoverForRelease | internal/application/deploy.go:418-460 | without an active release any other process is left running and reported as the new release's success |
| Deploy.SaysNothingWasRunning | internal/application/deploy.go:467-472 | and a deployment that changes nothing says that nothing was running |
| Deploy.RunDeployments | internal/application/deploy.go:310-460 | over any number of single-slot deployments, failing and dying anywhere, every report tells the situation it leaves |
| Deploy.LastReportTells | internal/application/deploy.go:355-413 | from the first activation on, whatever was running then: after the last success or rollback the active release runs, after a failed rollback nothing or the failed release, and otherwise nothing has changed |
| Deploy.StaysTidy | internal/application/deploy.go:355-413 | nothing but the active release ever runs, while no stop fails and first releases bring their own files |
| Deploy.ReportsNothingRunning | internal/application/deploy.go:389-397 | for every release with files and every active one there is a failure reported as "no version is running" with the release running |
| Deploy.ReportsNoChange | internal/application/deploy.go:398-410 | for every first release without files there is a failure reported as "no change" with the release running |
| Slots.SlotService.ReconcileApplication | internal/application/slots.go:335-425 | reads the file under the given manifest, skips applications without slots, and from any state, without errors, the recorded serving slot is the one in the file, every row has the state the facts dictate, and the change list is empty exactly when nothing was corrected |
| Slots.AtMostOneServing | internal/application/slots.go:441-471 | among rows whose process is known to be up or down exactly the one nginx points at is serving |
| Slots.UndecidedIsKept | internal/application/slots.go:441-471 | a row whose process is unknown, failed or in between keeps its state, and no row changes its release |
| Slots.ReconciledIsStable | internal/application/slots.go:335-425 | a second reconciliation on the same facts changes nothing |
| Lifecycle.FileReadsBack | internal/adapters/nginx/nginx.go:272-289 | while every version starts the slots on the same ports, the file of any version tells under any other's manifest where it points |
| Lifecycle.ReconcileMachine | internal/application/slots.go:313-425 | under the active release's manifest reconciling makes the slot of the installed file the recorded one, whatever the last deployment left recorded |
| Lifecycle.ServingRowIsLive | internal/application/slots.go:441-471 | after it a row is serving exactly when nginx points at its slot, and stopped exactly when no process is there |
| Lifecycle.UnbrokenByTheFiles | internal/application/slots.go:299-303 | exactly when a deployment after a reconciliation is safe, by where the loaded and the installed file point: both at the same slot, so after any successful reload |
| Lifecycle.Redeploy | internal/application/deploy_slot.go:43-249 | reconciliation and deployment keep traffic answered under every truthful failure from an unbroken state, and how it is lost from any other |
| Lifecycle.Interrupt | internal/application/deploy_slot.go:120-126 | from every served state that is not unbroken some truthful failure does lose it |
| Lifecycle.LoseDirectory | internal/application/deploy_slot.go:138-147 | for every superseded release a failed rollback to it deletes the directory its row goes on recording |
| Lifecycle.Crash | internal/application/deploy_slot.go:43-249 | a daemon that dies at any call but the three after an installation leaves, once reconciled, a settled state from which the next deployment is safe |
| Lifecycle.RunDeployments | internal/application/deploy_slot.go:43-249 | over any number of deployments that fail or die anywhere, each followed by a reconciliation, traffic never meets a slot without a live process unless one began in an unsafe state; none does while reconciling goes through and no deployment is cut off between installing nginx's file and loading it |
| Releases.EveryRunIsSound | internal/adapters/sqlite/catalog.go:404-474 | over every run at most one release is active, always exactly one after the first activation, and failed or removed rows have no directory |
| Releases.LatestActivationIsActive | internal/adapters/sqlite/catalog.go:418-446 | while the clock advances between activations, the active release is the one activated last |
| Releases.Latest | internal/adapters/sqlite/catalog.go:481-530 | the latest activated release of a status |
| Releases.RollbackTargetIsLastActive | internal/adapters/sqlite/catalog.go:517-530 | right after an activation the default rollback target is the release that was active before |
| Releases.PlanReleaseRemoval | internal/domain/release.go:174-229 | the removal plan as a function of the list |
| Releases.KeepsExactly | internal/domain/release.go:210-229 | exactly min(keepLast, n) versions with a directory stay |
| Releases.RemovesTheOldest | internal/domain/release.go:174-229 | only superseded releases with a directory go, and every one kept is younger |
| Releases.RemovalForgetsOrder | internal/domain/release.go:191-209 | the plan does not depend on the order of the list |
| Releases.RemovalIsIdempotent | internal/domain/release.go:174-229 | once carried out, the plan is empty |
| Render.RenderManaged | internal/adapters/nginx/render.go:21-83 | the text that is written, or the error for a missing slot, port or nginx section |
| Render.AtoiOfItoa | internal/adapters/nginx/render.go:58-121 | printing any 64-bit integer and reading it gives the integer |
| Render.PortAfter | internal/adapters/nginx/render.go:109-127 | the first server entry decides, other lines are passed over |
| Render.ParseOfRender | internal/adapters/nginx/render.go:21-127 | what reading a rendered file gives under any manifest |
| Render.ParseInvertsRender | internal/adapters/nginx/render.go:86-106 | a file read under the manifest it was rendered from gives the slot it was rendered for |
| Render.ParseUnderAnotherManifest | internal/application/slots.go:148-173 | under another manifest it does so exactly when the slot starts on the same port |
| Codec.CleanExactlyOnTheEncoding | internal/backupcodec/codec.go:327-375 | whatever the bytes are, the reader ends cleanly exactly on the encoding, and delivers only a prefix of the plaintext |
| Codec.EncryptedRoundTrip | internal/backupcodec/codec.go:122-178 | decoding an encrypted stream gives its plaintext |
| Codec.PlainRoundTrip | internal/backupcodec/codec.go:122-178 | decoding an unencrypted stream gives its bytes |
| Codec.OnlyTheStreamIsClean | internal/backupcodec/codec.go:122-178 | of all streams marked as encrypted only the written one ends cleanly, and without the key nothing is delivered |
| Codec.ChunksAre | internal/backupcodec/codec.go:236-279 | the chunks join to the plaintext, are never empty, and all but the last are full |
| Codec.FramesAreAStream | internal/backupcodec/codec.go:236-301 | what is written for any plaintext, the empty one included, is a finished stream of exactly that plaintext |
| Codec.FrameWriter.Write | internal/backupcodec/codec.go:236-250 | however the writes are cut, the frames are those of the concatenation; after Close they come behind the stream |
| Codec.FrameWriter.Close | internal/backupcodec/codec.go:252-279 | writes the rest and one empty frame; a second call does nothing |
| Codec.FrameWriter.ReadsBackUnlessWrittenLate | internal/backupcodec/codec.go:228-258 | the destination of a closed writer reads back cleanly if and only if at most one buffer was written after Close |
| Codec.FrameReader.NextChunk | internal/backupcodec/codec.go:327-375 | one frame is read, and nothing that was still ahead is lost |
| Codec.FrameReader.ReadAll | internal/backupcodec/codec.go:313-325 | reading with any buffer sizes gives what the stream decodes to |
| Codec.WriteThenRead | internal/backupcodec/codec.go:225-375 | written in any pieces and read with any buffers, a body comes back whole |
| Retention.PlanRetention | internal/domain/retention.go:41-80 | kept and deleted ids by position in the recency order |
| Retention.DeletedAreTheDoomed | internal/domain/retention.go:41-80 | deleted are exactly the usable backups that no rule keeps, by the number of more recent ones |
| Retention.Partition | internal/domain/retention.go:41-80 | every usable backup is on exactly one of the two lists, kept by its rank in recency, and no other backup is on either |
| Retention.PlanForgetsOrder | internal/domain/retention.go:86-101 | the plan does not depend on the order of the list |
| Retention.DeletesLessExactly | internal/domain/retention.go:60-78 | a change of the rules or the time never adds a deletion, over all lists, if and only if no fewer are kept by number and none by age as the cutoffs are computed |
| Retention.KeepingMoreDeletesLess | internal/domain/retention.go:60-78 | raising keepLast or keepDays up to 106751 days, or an earlier time, never adds a deletion |
| Retention.PlanIsIdempotent | internal/domain/retention.go:41-80 | planning again on the survivors deletes nothing |
| Retention.CutoffIsExact | internal/domain/retention.go:60-60 | the cutoff is computed exactly if and only if keepDays is at most 106751 |
| Retention.FutureCutoff | internal/domain/retention.go:60-60 | the cutoff lies in the future exactly where the product wraps to a negative number, first from 106752 to 213503 days |
| Retention.WrappedCutoffDeletes | internal/domain/retention.go:60-67 | there the rule keeps no backup finished by now |
| Retention.TwiceWrappedCutoff | internal/domain/retention.go:60-60 | 213600 days keep what was finished within 97 |
| Retention.GenerationsOnlyDeletesEverything | internal/domain/retention.go:46-50 | a policy with generation rules only deletes every finished usable backup |
| Retention.CutListDeletesLess | internal/application/backup.go:701-711 | a list cut off after its most recent entries plans nothing the whole list would not |
| Prune.CappedListingDeletesLess | internal/application/backup.go:701-711 | what is planned from the capped query is planned from all backups of the policy too |
| Prune.BackupService.ListBackupsForRetention | internal/adapters/sqlite/backup.go:379-403 | the most recent backups of the policy, all of them below the cap |
| Prune.BackupService.PruneBackup | internal/application/backup.go:757-776 | one backup is marked and its content deleted when nobody holds it, and how far an interrupted one gets |
| Prune.BackupService.Prune | internal/application/backup.go:685-788 | what a dry, a complete and an interrupted run do; every backup that remains has its content |
| Prune.PruneKeepsContent | internal/application/backup.go:757-776 | after any number of backups every remaining one, of any policy, has its content |
| Prune.StoppingKeepsContent | internal/adapters/sqlite/backup.go:433-471 | the same wherever the run stops |
| Prune.PruneMarksOnly | internal/adapters/sqlite/backup.go:440-471 | only planned, unused backups are marked, and nothing else about any row changes |
| Prune.BlobsGoWithLastHolder | internal/adapters/sqlite/backup.go:413-422 | a blob is deleted exactly when its last holder was pruned |
| Prune.EveryRunIsGood | internal/adapters/sqlite/backup.go:117-281 | over every run of backups, failures, restarts, checks and prunes each remaining backup has its content, and each completed one names it |
| Prune.DryRunIsHonest | internal/application/backup.go:741-755 | a dry run never reports more than the real run frees, and the same if and only if no shared content loses all its holders |
| Fleet.WaitForOperation | internal/fleet/exec.go:93-121 | the first final answer within the time to wait; failed queries are not failures |
| Fleet.RunOne | internal/fleet/exec.go:24-78 | a host succeeds exactly when the submission is a no-op or its operation ends in success in time |
| Fleet.PrepareAll | internal/fleet/prepare.go:19-35 | every host is asked once |
| Fleet.RunWave | internal/fleet/exec.go:17-22 | every host of the wave is submitted once and gets its outcome |
| Fleet.Run | internal/fleet/fleet.go:191-305 | every host ends with exactly one status, is asked once and submitted at most once, in its wave; the counts add up, all preparations precede all submissions, and nothing is submitted when the batch does not start |
| Fleet.LogIsTelling | internal/fleet/fleet.go:243-292 | the log has one submission for each submitted host and none for any other, with the number of the wave its position in line gives, and one question for every host |
| Fleet.LaterWaveOnlyAfterSuccess | internal/fleet/fleet.go:250-292 | when the log has submissions of two waves, every host submitted in the earlier one succeeded, or the batch keeps going |
| Fleet.SubmissionsArePrefix | internal/fleet/fleet.go:243-259 | the submitted hosts are the first in line, in their order |
| Fleet.NothingLeftWithoutStop | internal/fleet/fleet.go:250-292 | without a failure and a pause every ready host is submitted |
| Fleet.CountsAddUp | internal/fleet/fleet.go:159-167 | with every host decided the four counts sum to the number of hosts |
| Files.Backup | internal/adapters/backup/files/files.go:166-188 | the entries of every declared path in turn, or the first error |
| Files.EntriesAreKept | internal/adapters/backup/files/files.go:190-241 | an entry exists for a path exactly when no step to it is excluded, with the node that is there |
| Files.ExclusionDropsSubtree | internal/adapters/backup/files/files.go:208-215 | an excluded directory is dropped with everything below it |
| Files.TargetIsBelow | internal/adapters/backup/files/files.go:513-525 | every accepted entry name lands under the destination |
| Files.Disk.Extract | internal/adapters/backup/files/files.go:369-413 | extraction entry by entry, over links that are followed, with what an entry leaves that fails part way: without a link at or above a target it changes only archived paths and adds only their missing parents, all under the destination; in any case only the places the targets lead to |
| Files.RunLands | internal/adapters/backup/files/files.go:369-413 | the same for every run, whether an entry cannot be read, a folder or a file is refused or writing stops half way, and after a success every entry is where its target leads |
| Files.EntriesLandAtTheirTargets | internal/adapters/backup/files/files.go:386-400 | after a success every entry is at its own target if and only if no target and no path above one is a link in the tree it started from |
| Files.LinkIsFollowed | internal/adapters/backup/files/files.go:397-403 | a target that has become a link to a file gets that file overwritten |
| Files.ChangesSettle | internal/adapters/backup/files/files.go:369-413 | without a link at or above a target only targets change and only folders on the way to them are added, whatever a failing entry leaves behind |
| Files.RoundTrip | internal/adapters/backup/files/files.go:166-413 | extracting an archive into an empty destination fails only if the system refuses something, and a success rebuilds exactly the archived directories and files with their content |
| Streams.StreamWindow.Write | internal/adapters/backup/mysql/mysql.go:571-590 | however a stream is cut, the window holds its first and last bytes and its length |
| Streams.LastOfConcat | internal/adapters/backup/mysql/mysql.go:580-587 | the last bytes of a longer stream from the last bytes before and the new piece |
| Streams.LimitingReader.ReadAll | internal/application/artifact.go:330-350 | a stream within the limit passes unchanged; a longer one yields exactly limit bytes and then an error |

## Left out

- SQL, row scanning, manifests, audit and log text: each repository method is one atomic change of the tables.
- Cron expressions: an evaluator is any function whose result is strictly later than its argument; a cron that never fires again is not covered.
- AES-GCM, gzip and sha256: the cipher is ideal and knows one stream, so frames spliced in from another stream under the same key are not covered; compression is not modelled.
- The flag byte of the stream header is not authenticated: a stream whose flag is cleared is passed through as it is, so the theorems about altered streams are about streams marked as encrypted.
- DeploySlot.Deployer.ApplySlot: what is recorded after a failure is stated for reliable writes only, because an activation is not undone when a later write fails; the outcomes themselves hold without that.
- DeploySlot.Deployer.ApplySlot: that traffic always meets a live process is stated for reloads that have no effect when they report failure; otherwise tearing down the new slot can stop the one nginx has loaded.
- Deploy: all releases of an application share one unit name.
- Retry.NextDelay: delays above 2^53 ns are rounded when they become floats, and a draw that is not a number is not covered; out of range the conversion is that of amd64.
- Slots.SlotService.ReconcileApplication: which release is active is read before; the counters in its result are not modelled.
- Lifecycle.ReconcileMachine: that the file is read back right is stated for versions that start each slot on the same port; Render.ParseUnderAnotherManifest says what happens otherwise.
- Reads of the database that fail end a deployment or reconciliation before anything changes and are not modelled.
- Waiting for readiness, the observation window and draining are reduced to their yes-or-no outcome.
- Render.RenderManaged: the wording of comments and the constant proxy settings are abbreviated.
- Prune.BackupService.Prune: a backup that is being written while prune runs is not covered; prune takes no lock against it.
- Fleet: goroutines are replaced by any order of the hosts handed to the workers; progress output and idempotency keys are not modelled.
- Files: modes, times and tar bytes are not modelled. In a backup a link to follow carries the content it leads to, and a link in the middle of a declared path is not followed; in a restore a link stands for an absolute path without `..`.
- Files.RoundTrip: the destination exists and is empty, as an isolated restore makes it.
- HTTP handlers, the command line, authorisation, TLS, redaction, database dumps and artifact collection: checks settled by reading one branch.
