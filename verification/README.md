# A verified model of apexd

apexd is the Android daemon that stages, activates and rolls back APEX packages. This project models its
recovery protocol, its database of mounts, its parallel activation, its choice of what to activate, and the
code around them in Dafny, and proves what they promise. `dafny verify dfyconfig.toml` checks everything.

## The parts

- **Storage, Rollback, InterruptedBoots, BackupHistory, SessionLifecycle, Updates** — sessions, the active, the
  backup and the decompression directory, hash trees, and every operation that writes them. The class `Apexd`
  runs under a power budget: `power` is the number of atomic disk writes (link, unlink, rename, one commit of a
  session file, ...) left before the device loses power; once it is 0 no write has an effect. A contract that
  holds for every budget therefore holds for a crash between any two writes, and `power > 0` at the end says
  that the call was not cut. Every operation also bounds the writes it makes (`StageCost`, `RevertCost`,
  `BootCost`, ...), so that a budget above the bound does get it through. A reboot is a new budget (`PowerOn`),
  and a run is any sequence of boots, requests, crashes and checkpoint rollbacks (`Run`). `Run` offers requests
  only after a boot that got through, because on a boot `main` registers the binder service after `OnStart`
  (apexd/apexd_main.cpp:160-178); this is why the requests require that no session is being reverted (`AtRest`).
  A daemon that is restarted without a boot serves at once; such restarts are left out.
- **MountedApexes, Activation, ActivationResult** — the mutex-guarded map of ordered sets, and the workers that
  drain a queue of APEXes. `Activation.Run` lets one worker at a time make one critical section, so every
  schedule is an interleaving; mounting and binding succeed or fail as the schedule says. At the end the results
  are counted and the providers of shared libraries contribute in order.
- **Repository, Selection, BootFallback** — directory scans, `SelectApexForActivation`, the reservation of space
  for an OTA, and the fallback to pre-installed copies. The numbers are `int64`, and the narrowing to `int` in
  the selection is explicit (`Naming.Int32`).
- **WholeBoot** — staging and activation of one boot joined: the error of the activation decides on the revert.
- **CompressedApex, SharedLibs** — reuse, rename or decompression of compressed APEXes, and the symlinks under
  /apex/sharedlibs.
- **Recovery, PackageIdMinor, Naming, Digest, Packages** — the database rebuilt from the mount table, dm minors,
  package ids, hex digests.

Directory listings come in any order (`Basics.List`, or a listing passed in); results of opening files,
signature checks, system properties, and answers of the kernel are parameters.

## What turned out not to hold as one might expect

- Versions outside the 32-bit range can make the selection take both files of a package, or neither
  (`NarrowingCounterexamples`), and drop a lower pre-installed provider of shared libraries
  (`ProviderCounterexample`); `IntendedDecisionsIff` says exactly when, and `SomethingIsChosen` that "neither"
  needs a version below the 32-bit range.
- The reservation for an OTA overlooks a provider of shared libraries that is lower than the copy on /data:
  the boot activates it next to the data copy and has to decompress it (`OverlookedExample`).
  `ReservationAgrees` gives all disagreements, `ReservationAgreesWhenSettled` the only one that is left under
  the usual assumptions.
- `ComputePackageIdMinor` adds one to a parsed minor in `size_t`; a device with the largest minor is forgotten
  (`StaleExample`, `ResultIsFresh`).
- A backup that a power loss cuts is not marked as such, and a later revert uses it. The old backup is emptied
  before the first file is linked (apexd/apexd.cpp:947), so the revert may also bring back packages of the
  backup before. `CutSubmissionLosesPackages` is a run in which one package is lost and another comes back at
  an older version; `RevertToCutBackup` says that the packages come all from the directory or all from the old
  backup, and `SubmitCutThenRevert` that they are those active at the submission exactly if the power covers
  the whole backup, `BackupCost`, unless all the files had been backed up before.
- All sessions share the backup, and the last request that wrote it decides what a revert brings back
  (`BackupAfterRun`). A later submission backs up what is active then, and it does so before it verifies the
  session (apexd/apexd.cpp:3053-3076): whether it is accepted or refused, a revert afterwards leaves the
  updates of earlier sessions active, and these sessions REVERTED (`SecondSubmissionThenRevert`,
  `RefusedSubmissionKeepsUpdate`). The success mark of a session empties the backup: a revert of another one
  afterwards leaves the active directory empty (`SuccessThenRevert`). So a revert restores the packages of an
  accepted submission if and only if no such request came since, or the last one was a submission that found
  the same packages, or there was nothing to back up (`SubmitRunRevert`, `RestoredIff`).
- The keys of multi-install packages are compared within one directory scan only: the map is cleared at the
  end of each scan (apexd/apex_file_repository.cpp:161). So a mismatch across two directories is not seen,
  and one within a directory is forgotten by the next, which puts the package back
  (`MismatchAcrossDirectories`); `MismatchKeepsOutIff` says exactly when a mismatch keeps the package out.
- The comment at apexd/apexd.cpp:2324-2327 says that a revert leaves the active directory as it was before;
  without a backup or an active directory the code ends in REVERT_FAILED and changes nothing
  (`Rollback.Reverted`). When the rename had been made before the power was lost, the sessions still being
  reverted end in REVERT_FAILED too, with the right contents (`BootUntilReverted`).
- The comparator with which shared-library APEXes are sorted puts an updated APEX before itself, so it is
  a strict weak order only if all are pre-installed (`ComparatorIsStrictOnPreInstalled`); on one
  pre-installed and one updated APEX it decides one way (`ComparatorDecidesPair`).
- The character `HexToBin` accepts letters up to 'H'; the model does the same.

## Model

| member | source | states |
|---|---|---|
| Updates.Apexd.StagePackages | apexd/apexd.cpp:2208-2298 | For every crash point the disk is one that an interrupted staging of these packages may leave (`StageCut`); an uncut, successful call leaves exactly the staged files for the affected packages and every other file, session and backup as it was; failure to open another file leaves a partly pruned directory with all new files linked; the call makes at most `StageCost` writes, so more power than that gets it through |
| Updates.Apexd.RemovePreviouslyActiveApexFiles | apexd/apexd.cpp:363-398 | Removes only files of affected packages that are not to be kept, all of them if not cut, with at most one write for each file, and fails exactly when an active APEX cannot be opened |
| Updates.Apexd.StageOne | apexd/apexd.cpp:2245-2290 | One package of a staging: promotes its hash tree, replaces its link; a cut stays within what an interrupted staging may leave |
| Storage.StageAfterCut | apexd/apexd.cpp:2208-2298 | Redo: staging again after a crash at any point gives the disk of one uncut staging |
| Storage.StageAfterCuts | apexd/apexd.cpp:2208-2298 | The same after any number of interrupted attempts |
| Storage.CutCommutes | apexd/apexd.cpp:2063-2298 | A staging that was cut stays one that was cut while other packages, even of the same names, are staged on top |
| Storage.StageIdempotent | apexd/apexd.cpp:2208-2298 | Staging twice is staging once |
| Storage.CutThenWrite | apexd/apexd.cpp:2245-2290 | Each single write of a staging, from any interrupted state, leads to an interrupted state |
| Storage.StagedReadable | apexd/apexd.cpp:363-398 | Staging keeps every APEX file readable, so the next staging cannot fail on it |
| Updates.Apexd.BackupActivePackages | apexd/apexd.cpp:921-980 | An uncut backup succeeds exactly if every active APEX opens and no two share a package id, and then holds exactly those packages under the names of their ids; on failure the backup is empty; nothing else changes, and a cut after any number of writes leaves so much of the old backup, or a backup that is complete exactly if the power sufficed |
| Updates.Apexd.LinkBackups | apexd/apexd.cpp:956-977 | The copying loop: any prefix of the links is a partial backup of the active directory |
| Updates.Apexd.DeleteBackup | apexd/apexd.cpp:908-919 | Deletes as many files of the backup as the power allows, and touches nothing else |
| Rollback.BackupDetermined | apexd/apexd.cpp:921-980 | A complete backup is determined by the directory and holds the same collection of APEX contents |
| Rollback.RevertToCutBackup | apexd/apexd.cpp:921-1021 | After a revert to a backup that was cut anywhere, the packages come all from the directory that was backed up or all from the backup before it |
| Rollback.CompleteIffPowered | apexd/apexd.cpp:921-980 | A backup is complete if the power covers all its writes, and otherwise only by coincidence: what is left of the old backup is the new one, and every file was in it already |
| Rollback.CompleteIffSamePackages | apexd/apexd.cpp:952-976 | A directory of files named by package id is a complete backup if and only if it holds the same packages |
| Rollback.BackupKeepsNames | apexd/apexd.cpp:952-976 | Backups stay named by package id at every cut |
| Updates.Apexd.ReplaceBackup | apexd/apexd.cpp:941-980 | Emptying and copying, with the exact number of writes and what each number of them leaves |
| Updates.Apexd.SubmitCutThenRevert | apexd/apexd.cpp:921-1021 | For every power budget of a submission, the next boot and a revert: which packages come back, and that they are those active at the submission exactly if the budget covers the backup, unless all files had been backed up before; the revert gets through with more power than `RevertCostAfter` |
| Updates.Apexd.CutSubmissionLosesPackages | apexd/apexd.cpp:921-1021 | A run, with power for 6 writes after the cut, in which a submission cut after one write makes the revert lose one package and bring back the older version of another |
| Updates.Apexd.SuccessThenRevert | apexd/apexd.cpp:3142-3164 | The success mark of one session empties the shared backup, so that a revert of another one empties the active directory; both get through with the power for the files of the backup, one commit and a revert |
| Updates.Apexd.SubmitRunRevert | apexd/apexd.cpp:3045-3164 | After an accepted submission and any peaceful run (boots cut or not, later submissions, success marks, aborts, cleanups), a revert restores the packages active at the submission if and only if they are still backed up (`StillBackedUp`): no later request wrote the backup, or the last one that did was a submission that found the same packages, or there was nothing to back up; with power for the submission it is accepted exactly if it should be, and with power for the revert it is made |
| Updates.Apexd.RunRevert | apexd/apexd.cpp:2334-2398 | The same from any disk on which a directory is completely backed up: the revert leaves what the backup holds at the end of the run, and it is made exactly if the run ends serving requests, the power covers it, and some session is in play |
| Updates.Apexd.SecondSubmissionThenRevert | apexd/apexd.cpp:3045-3121 | Another submission, accepted or refused, and a revert leave the packages active at that submission, so the updates before it, while every session in play ends REVERTED |
| Updates.Apexd.RefusedSubmissionKeepsUpdate | apexd/apexd.cpp:3045-3121 | A run in which a refused submission makes the revert of an earlier session leave its update active |
| BackupHistory.BackupAfterRun | apexd/apexd.cpp:3045-3164 | After a peaceful run the backup is the complete backup of the directory active at the last submission that reached it, accepted or refused; it is empty if a success mark of an ACTIVATED session came later, or if that directory could not be backed up; else it is as at the start |
| BackupHistory.BackupAfterCut | apexd/apexd.cpp:921-1021 | If the last submission was cut, what a revert restores is all from the directory of that submission or all from the backup before it |
| BackupHistory.RestoredIff | apexd/apexd.cpp:3045-3164 | The backup at the end of a peaceful run holds the packages of a directory backed up at its start if and only if they are still backed up, which the last request that wrote the backup decides; and then it is again a complete backup of this directory |
| BackupHistory.SameAtEverySubmission | apexd/apexd.cpp:3045-3164 | It is enough that no ACTIVATED session is marked successful and every later submission finds the same packages |
| Updates.Apexd.RestoreActivePackages | apexd/apexd.cpp:982-1021 | Succeeds exactly if both directories exist; uncut, the active directory becomes what the backup was and the backup is gone; a cut leaves part of the old active directory or the finished restore; one write for each active file and the rename |
| Updates.Apexd.RevertActiveSessions | apexd/apexd.cpp:2334-2398 | Fails without a session to revert; uncut, all sessions in play end REVERTED with the backup restored, or REVERT_FAILED with nothing else changed; every cut leaves one of the disks of `RevertLeaves`; it makes at most `RevertCost` writes: two for each session, one for each active file and the rename |
| Updates.Apexd.CommitAll | apexd/apexd.cpp:2353-2395 | Commits the marked copies one by one, with one write each; after a cut each session is as before or equals its copy |
| Rollback.RevertParts | apexd/apexd.cpp:2334-2398 | Marks, restore and final states, each possibly cut, compose to a revert or to one of the disks a cut revert may leave |
| Rollback.CutRevertHasBegun | apexd/apexd.cpp:2334-2398 | The first call of a revert, cut anywhere, has either changed nothing or begun a revert whose target is the backup at the call |
| Rollback.CutRevertGoesOn | apexd/apexd.cpp:2334-2398 | Whatever a cut revert leaves is still the same revert: it is recognised as unfinished and has the same target contents |
| Rollback.RevertedIsOver | apexd/apexd.cpp:2334-2398 | A revert that gets through leaves the target contents, no backup, and only finalized or UNKNOWN sessions |
| Rollback.RevertedAtRest | apexd/apexd.cpp:2334-2398 | After a revert no session is left to activate or revert, in either mode |
| Updates.Apexd.ResumeRevertIfNeeded | apexd/apexd.cpp:1158-1165 | Does nothing unless a session is REVERT_IN_PROGRESS; otherwise it is a revert, or a cut one |
| Updates.Apexd.BootUntilReverted | apexd/apexd.cpp:2334-2398 | A pending revert, through any number of boots cut anywhere, with activation failing or not on each: the target stays, and the first boot that gets through leaves exactly it in the active directory and every session finalized; a boot does get through if its budget is more than `BootCost`; if the backup was gone at the start, the sessions being reverted end REVERT_FAILED |
| Updates.Apexd.RevertThenBoots | apexd/apexd.cpp:2334-2398 | Crash-safe revert from its first call on: the call and the boots after it may be cut anywhere; either nothing has changed, or the first run that gets through leaves exactly what the backup held at the call; the call gets through with more power than `RevertCost`, and else a boot with a budget above `BootCost` |
| Updates.Apexd.BootUntilStaged | apexd/apexd.cpp:2063-2298 | Boots cut anywhere, then one that gets through, as one with a budget above `BootCost` does: the data are those of one uncut boot that stages the sessions in some order, also if they share packages; for sessions on different packages they are those of every order; and a session is ACTIVATED if and only if it could be staged |
| Updates.Apexd.BootsLeaveChain | apexd/apexd.cpp:2063-2298 | Boots after boots are boots: what is left to stage leads to the same data as staging everything in the order of the commits |
| Updates.Apexd.CutThenAll | apexd/apexd.cpp:2063-2298 | A session begun and cut can be left to any later place in the order: staging all the sessions gives the same data as if it had not been begun |
| Updates.Apexd.AnyOrder | apexd/apexd.cpp:2063-2298 | Sessions on different packages give the same data in every order |
| Updates.Apexd.CostShrinks | apexd/apexd.cpp:2903-3000 | What boots, cut or not, leave never makes a later boot cost more than the first would have |
| InterruptedBoots.InterruptedAgain | apexd/apexd.cpp:2063-2298 | Two interrupted boots make one: sessions in place stay in place while the others are staged |
| InterruptedBoots.AllDoneDetermined | apexd/apexd.cpp:2208-2298 | When all sessions are in place, the directory and the hash trees do not depend on the order or on the cuts |
| Updates.Apexd.ActivateSession | apexd/apexd.cpp:2084-2197 | One session under any budget: it is committed only after it has been staged, and ACTIVATED if and only if it could be |
| Updates.Apexd.PrepareBoot | apexd/apexd.cpp:2903-2946 | The boot up to activation: rolled back if vold asks for it, else staged and, if a revert was pending, reverted; the number of writes is bounded by the disk at its start |
| Updates.ScanLeavesRevert | apexd/apexd.cpp:2063-2197 | Activating staged sessions during a boot neither begins, ends nor redirects a pending revert |
| Updates.ResumeGoesOn | apexd/apexd.cpp:1158-1165 | Resuming keeps the target, and finishes the revert if it is not cut |
| Updates.Apexd.BackupStageRevert | apexd/apexd.cpp:921-1021 | Backup, any sequence of stagings, revert: the active directory holds the same collection of packages as at first, under the names of their ids, and the sessions are REVERTED; nothing is cut with more power than `RoundTripCost` |
| Updates.Apexd.StageSession | apexd/apexd.cpp:2084-2190 | A session that fails a check is ACTIVATION_FAILED and changes nothing; an eligible one is staged and ACTIVATED when the active files are readable |
| Updates.Apexd.ScanStagedSessionsDirAndStage | apexd/apexd.cpp:2063-2197 | Tries exactly the sessions STAGED (and, with checkpoints, ACTIVATED), whatever the order of the listing; uncut, the disk is that of staging the eligible ones in this order, and a session is ACTIVATED if and only if it was eligible |
| Updates.Apexd.SessionsToActivate | apexd/apexd.cpp:2063-2083 | Lists every session to activate exactly once |
| Updates.Apexd.OnStart | apexd/apexd.cpp:2903-3000 | A boot that gets through, as it does with more power than `BootCost`, leaves no session REVERT_IN_PROGRESS; when vold asks for a rollback every session in play is REVERTED and nothing is staged; it reboots if and only if activation fails, a session is still in play, and both directories are there or checkpoints are supported, and then the active directory is what the backup was |
| Updates.Apexd.RevertIfFailed | apexd/apexd.cpp:2977-2987 | A failed activation reverts what is in play, and reboots exactly if there is something to revert and to restore; a successful one changes nothing |
| WholeBoot.StartUp | apexd/apexd.cpp:2903-3000 | Staging, activation and revert of one boot joined: it reverts and reboots exactly if a worker reported a failure or a contribution to the shared libraries failed, and there is something to revert and to restore |
| WholeBoot.Activate | apexd/apexd.cpp:1663-1766 | Activation of a list fails exactly if some APEX was reported as failed or a contribution failed; if it does not fail, every package of the list is mounted |
| Updates.Apexd.SubmitStagedSession | apexd/apexd.cpp:3045-3121 | Accepts exactly the sessions whose directories each hold one installable APEX, that are not both a rollback and rollback-enabled, and for which the backup succeeds; then the session is VERIFIED; accepted or refused after the backup, the backup is complete (without checkpoints); refusal or a crash changes no session |
| Updates.Apexd.AcceptSession | apexd/apexd.cpp:3070-3121 | After the backup: accepts exactly if every directory is installable and the session is not refused, and then commits it as VERIFIED |
| Updates.Apexd.VerifySessionDir | apexd/apexd.cpp:884-906 | Accepts a directory exactly if it holds one APEX file, which opens and passes the install checks |
| Updates.Apexd.MarkStagedSessionReady | apexd/apexd.cpp:3123-3140 | Succeeds exactly from VERIFIED or STAGED and leads to STAGED; nothing else changes |
| Updates.Apexd.MarkStagedSessionSuccessful | apexd/apexd.cpp:3142-3164 | Succeeds exactly from ACTIVATED or SUCCESS; no cut leaves SUCCESS with a backup that still holds files |
| Updates.Apexd.AbortStagedSession | apexd/apexd.cpp:1606-1620 | Deletes exactly a session that is VERIFIED or STAGED |
| Updates.Apexd.BootCompletedCleanup | apexd/apexd.cpp:3230-3245 | Keeps every mounted file; uncut, only mounted APEX files, in both directories, and unfinalized sessions remain |
| Updates.Apexd.RemoveInactiveDataApex | apexd/apexd.cpp:3166-3198 | Removes the APEX files of the active directory and the decompressed APEX files that are not mounted, and nothing else |
| Updates.Apexd.Do | apexd/apexd_session.cpp:232-258 | One atomic write, recorded in the history; allowed only along the graph of session states |
| Updates.Apexd.Handle | apexd/apexd.cpp:2903-3245 | One event of a run and its entry in the trace; requests are served from a boot that got through until one is cut or the device reboots |
| Updates.Apexd.Run | apexd/apexd.cpp:2903-3000 | Any sequence of boots, requests, crashes and checkpoint rollbacks is a legal run of every session, and requests meet sessions at rest; a peaceful run without checkpoints leaves a trace that says of each event what it made of the backup, cut or not, what it made of the whole disk if it was not cut, and that it was not cut if it had more power than it can use |
| Updates.Apexd.Serve | apexd/apexservice.cpp:592-607 | What each request makes of the disk if it is not cut (`Answered`) and of the backup in any case (`BackupStep`); it leaves sessions at rest and costs at most `RequestCost`; only a crashing process makes the device reboot |
| SessionLifecycle.SuccessWasVerifiedStagedActivated | apexd/apexd.cpp:3123-3164 | Over whole runs: a session reaches SUCCESS only after VERIFIED, STAGED and ACTIVATED, in this order with nothing in between |
| SessionLifecycle.ActivatedWasStaged | apexd/apexd.cpp:2063-2197 | ACTIVATED is entered only from STAGED |
| SessionLifecycle.RevertEndsReverted | apexd/apexd.cpp:2334-2398 | REVERT_IN_PROGRESS is left only for REVERTED or REVERT_FAILED |
| SessionLifecycle.FinalizedStays | apexd/apexd_session.cpp:157-167 | A finalized session changes only by deletion or by submission of its id |
| MountedApexes.LessIsTotalOrder | apexd/apex_database.h:68-97 | operator< is irreflexive, transitive and asymmetric, and incomparable entries agree in all six compared fields |
| MountedApexes.InsertKeepsOrder | apexd/apex_database.h:101-116 | Insertion keeps the order and adds exactly one element |
| MountedApexes.LastIsGreatest | apexd/apex_database.h:147-161 | The entry taken as the latest is the greatest one |
| MountedApexes.MountedApexDatabase.AddMountedApex | apexd/apex_database.h:101-123 | Adds exactly the entry; the process survives exactly if the entry is new and all device names stay pairwise distinct over all packages |
| MountedApexes.MountedApexDatabase.CheckUniqueLoopDm | apexd/apex_database.h:237-256 | The nested loops accept exactly the databases whose non-empty loop, hash tree loop and dm names are pairwise distinct |
| MountedApexes.MountedApexDatabase.RemoveMountedApex | apexd/apex_database.h:125-144 | Removes the first entry with this path and kind or, if there is none, nothing; distinctness of devices is kept |
| MountedApexes.MountedApexDatabase.IsLatest | apexd/apex_database.h:147-161 | The handler runs exactly if the path is that of the greatest entry |
| MountedApexes.MountedApexDatabase.ForallMountedApexes | apexd/apex_database.h:163-179 | Visits the entries of the wanted kind from the greatest down, and marks as latest only the greatest of all entries |
| MountedApexes.OnlyFirstVisitIsLatest | apexd/apex_database.h:163-179 | At most the first visit is marked latest, exactly if the greatest entry is of the wanted kind |
| MountedApexes.MountedApexDatabase.GetLatestMountedApex | apexd/apex_database.h:197-207 | Returns a value if and only if the greatest entry is not a temp mount, and then that entry |
| MountedApexes.MountedApexDatabase.UnmountTempMount | apexd/apexd.cpp:1095-1112 | Terminates having forgotten all temp mounts of the package and nothing else |
| Activation.EveryJobDoneOnce | apexd/apexd.cpp:1626-1661 | For any number of workers and any schedule, once all workers have left, every queued APEX was processed exactly once |
| Activation.OneResultPerJob | apexd/apexd.cpp:1663-1719 | There are as many results as queued APEXes |
| Activation.SchedulesAreFinite | apexd/apexd.cpp:1626-1661 | Workers terminate: no schedule has more steps than the work at the start allows |
| Activation.StepUsesWork | apexd/apexd.cpp:1632-1658 | Every step of a worker that has not left reduces the work left, or aborts |
| Activation.CollectResults | apexd/apexd.cpp:1700-1719 | Activated and failed add up to the number of results; exactly the activated providers of shared libraries are collected |
| ActivationResult.FinishActivation | apexd/apexd.cpp:1700-1763 | An error is returned if and only if an activation failed or a contribution, made in order on the links left by those before it, failed |
| Activation.LatestIsBound | apexd/apexd.cpp:1313-1365 | Under every interleaving, once all workers have left without a bind failure, /apex/name is bound to the mount point of the greatest entry |
| Activation.RunBound | apexd/apexd.cpp:1313-1365 | At every moment of every run the active mount is the latest entry's, or some worker that mounted the latest entry has yet to bind it |
| Activation.ActivatedIsMounted | apexd/apexd.cpp:1313-1365 | A package reported as activated is in the database |
| Activation.NextShape | apexd/apexd.cpp:1632-1658 | Each step takes one APEX from the queue, moves one worker on with its APEX, reports one APEX once, or lets one worker leave when the queue is empty |
| Repository.ApexFileRepository.ScanBuiltInDir | apexd/apex_file_repository.cpp:59-163 | After a scan the store holds, per package: nothing for a multi-install package with a key mismatch, else what it held before, else the first file meant for it; it aborts only on a duplicate or a changed key |
| Repository.ApexFileRepository.ScanOne | apexd/apex_file_repository.cpp:73-160 | One file of the scan: the new entry of every package and the keys seen |
| Repository.ApexFileRepository.MultiInstallIgnoresOrder | apexd/apex_file_repository.cpp:91-132 | Two eligible files with different keys, wherever in the listing, keep the package out; whether it is in the store does not depend on the order of the listing |
| Repository.ApexFileRepository.StoreAfterOneMore | apexd/apex_file_repository.cpp:105-132 | How one more file changes the declarative outcome of a scan |
| Repository.ApexFileRepository.AddPreInstalledApex | apexd/apex_file_repository.cpp:170-178 | Scanning the directories in order, what the store holds per package; it stops only at a file that does not open or at a duplicate |
| Repository.ApexFileRepository.PresentIffMeantAfterLastMixed | apexd/apex_file_repository.cpp:59-178 | A package is there exactly if, after the last directory that is itself mixed, some directory has a file meant for it |
| Repository.ApexFileRepository.MismatchKeepsOutIff | apexd/apex_file_repository.cpp:105-178 | A mismatch of keys over all directories keeps the package out exactly if every directory with a file meant for it is mixed or comes before one that is |
| Repository.ApexFileRepository.MismatchAcrossDirectories | apexd/apex_file_repository.cpp:105-178 | Two files with different keys: kept out together, present when in two directories, and put back by a later directory |
| Repository.ApexFileRepository.AddDataApex | apexd/apex_file_repository.cpp:315-384 | The entry kept is the first of the highest version among the old entry and the trusted files: opened, of a pre-installed package, with its key, without the decompressed suffix |
| Repository.ApexFileRepository.BestVersionIgnoresOrder | apexd/apex_file_repository.cpp:368-381 | The entry is determined, and its version does not depend on the order of the listing |
| Repository.ApexFileRepository.AllApexFilesByName | apexd/apex_file_repository.cpp:491-514 | Groups exactly the pre-installed and the data file of each package, in this order |
| Selection.SelectApex | apexd/apexd.cpp:2656-2702 | Appends the file exactly if it is to be activated next to the other version |
| Selection.SelectApexForActivation | apexd/apexd.cpp:2620-2709 | The list is, package by package, what is chosen for the pre-installed packages |
| Selection.HighestIsChosen | apexd/apexd.cpp:2620-2709 | With 32-bit versions: the higher file, data on a tie; both only if the pre-installed one provides shared libraries and is strictly lower |
| Selection.IntendedDecisionsIff | apexd/apexd.cpp:2656-2706 | For all 64-bit versions and both kinds of packages: the decisions are the intended ones if and only if neither version is narrowed across the other or, for a provider of shared libraries, onto it or away from it |
| Selection.IntendedUnlessNarrowedAcross | apexd/apexd.cpp:2703-2706 | For all 64-bit versions of a package without shared libraries: the list chosen is the intended one if and only if neither version is narrowed across the other |
| Selection.ProviderCounterexample | apexd/apexd.cpp:2677-2706 | Two providers of shared libraries for which the lower, pre-installed one is not activated |
| Selection.SomethingIsChosen | apexd/apexd.cpp:2703-2706 | Some file is chosen whenever no version is below the 32-bit range |
| Selection.NarrowingCounterexamples | apexd/apexd.cpp:2703-2706 | Versions for which both files, or neither, are chosen |
| Selection.ScanThenSelect | apexd/apexd.cpp:2620-2709 | Scan and selection together refine a declarative maximum over the pre-installed file and all trusted files, with ties to /data |
| Selection.SelectionIgnoresOrder | apexd/apex_file_repository.cpp:315-384 | The versions chosen do not depend on the order of the listing |
| Selection.FlatHas | apexd/apexd.cpp:2620-2709 | A file is on the activation list exactly if it is chosen for a package of the walk |
| Selection.ReservationAgrees | apexd/apexd.cpp:3314-3353 | The reservation and the boot after the OTA, written separately, disagree on a compressed APEX in exactly two stated cases |
| Selection.ReservationAgreesWhenSettled | apexd/apexd.cpp:3314-3353 | Under the assumptions of the design they agree if and only if the APEX is not a lower provider of shared libraries |
| Selection.OverlookedExample | apexd/apexd.cpp:3346-3352 | A concrete APEX that the boot decompresses and for which nothing is reserved |
| Selection.CalculateSizeForCompressedApex | apexd/apexd.cpp:3355-3371 | The size is the sum over exactly the APEXes the boot will decompress, and never too small unless one is overlooked |
| BootFallback.CollectMissing | apexd/apexd.cpp:1774-1790 | Collects the pre-installed copy for exactly the inactive packages without shared libraries whose other copy was tried |
| BootFallback.ProcessCompressed | apexd/apexd.cpp:2955-2972 | Takes the compressed files off the list, processes them in order, and puts what they give at the end |
| BootFallback.ProcessedHas | apexd/apexd.cpp:2955-2972 | A file that is not compressed, or that can be decompressed when its turn comes, is on the list to activate, as itself or as the file that validates at its decompressed path |
| BootFallback.EveryPackageIsMounted | apexd/apexd.cpp:2948-2992 | Every run of OnStart that does not reboot, with the lists that `ProcessCompressedApex` really returns, ends with a mounted version of each pre-installed package without shared libraries, whatever fails, if pre-installed copies can be decompressed and mounted |
| BootFallback.FallbackMounts | apexd/apexd.cpp:1768-1820 | If the data copy failed in the first phase, the second phase mounts the pre-installed copy |
| BootFallback.MountableIsMounted | apexd/apexd.cpp:1313-1371 | Under every schedule a queued file that mounting never refuses ends up in the database |
| BootFallback.UnmountedIsReported | apexd/apexd.cpp:1651-1657 | A queued file without a mount at the end was reported as failed |
| CompressedApex.Decompressor.ProcessCompressedApex | apexd/apexd.cpp:2735-2847 | At boot and in the OTA chroot: which of reuse, rename and decompression happens, what is returned, and every file and the reserved space afterwards |
| CompressedApex.Decompressor.OpenAndValidate | apexd/apexd.cpp:2713-2731 | Accepts exactly a file with the key, version, digest and context asked for |
| CompressedApex.Decompressor.DecompressAfresh | apexd/apexd.cpp:2810-2846 | Success leaves a file that validates at the destination, failure none if removing works; nothing else changes |
| CompressedApex.Decompressor.Decompress | apexd/apex_file.cpp:396-457 | Never overwrites a file: an existing destination stays as it is; a failed extraction leaves nothing behind if removing works |
| CompressedApex.Decompressor.ProcessAll | apexd/apexd.cpp:2856-2875 | Processes a list in order and drops failures |
| CompressedApex.BootLeavesValidFileOrNone | apexd/apexd.cpp:2735-2847 | Boot: success means a valid file at the decompressed path, failure means none; files of other packages do not change |
| CompressedApex.ChrootKeepsDecompressed | apexd/apexd.cpp:2735-2847 | Chroot: no package's decompressed path changes, and success returns a valid file |
| CompressedApex.SecondCallChangesNothing | apexd/apexd.cpp:2742-2773 | After a success, a second call changes nothing and returns the same file |
| CompressedApex.ChrootSparesBoot | apexd/apexd.cpp:2761-2797 | A boot after a success in the chroot needs no decompression and returns the same APEX at the decompressed path |
| CompressedApex.BootListIsWhatIsValid | apexd/apexd.cpp:2856-2875 | Over a list in which no other package has its id: the file of a package is returned exactly if one that validates is at its decompressed path at the end |
| CompressedApex.UnpackedStays | apexd/apexd.cpp:2856-2875 | A package that can be decompressed at its turn has a file that validates at the end of the list |
| CompressedApex.PathsApart | apexd/apexd.cpp:2738-2764 | The two paths of a package, and the paths of different packages, differ |
| SharedLibs.SharedLibsDir.ContributeToSharedLibs | apexd/apexd.cpp:1167-1266 | Without an error the links are the left-biased union; an error comes from the first clash in the order of the walk, after the union with the keys before it |
| SharedLibs.SharedLibsDir.Link | apexd/apexd.cpp:1206-1248 | An existing link never changes; a clash is an unreadable or different size, or a link that cannot be made |
| SharedLibs.SharedLibsDir.MakeDirectory | apexd/apexd.cpp:1189-1201 | Creates a library's directory unless it is there; an error only if it cannot be made |
| SharedLibs.SharedLibsDir.Populate | apexd/apexd.cpp:1740-1755 | All contributors are tried; the count of failures is 0 exactly if all succeeded |
| SharedLibs.LeftBiasedUnion | apexd/apexd.cpp:1730-1755 | Over any list without an error: an old link if there was one, else a link to the first contributor in order, else none |
| SharedLibs.LinksStay | apexd/apexd.cpp:1206-1242 | No existing link changes over any list, on error paths either |
| SharedLibs.HighestVersionIsLinked | apexd/apexd.cpp:1730-1739 | In the order of the sort, a new link points to a contributor of the highest version |
| SharedLibs.SortedIsFalling | apexd/apexd.cpp:1728-1739 | The sort gives a permutation with falling versions, and updated APEXes first on a tie |
| SharedLibs.ComparatorIsStrictOnPreInstalled | apexd/apexd.cpp:1730-1737 | The comparator of the sort is a strict weak order if and only if every APEX is pre-installed |
| SharedLibs.ComparatorDecidesPair | apexd/apexd.cpp:1730-1737 | Of a pre-installed and an updated APEX exactly one comes first: the pre-installed one if and only if its version is higher |
| Recovery.PopulateFromMounts | apexd/apex_database.cpp:263-299 | Adds exactly what the lines of the mount table recover; survives exactly if no line breaks uniqueness |
| Recovery.PopulateLoopInfo | apexd/apex_database.cpp:129-178 | Finds the data loop device and the hash tree loop device among the slaves, or fails |
| Recovery.SlaveOrderIsIrrelevant | apexd/apex_database.cpp:151-163 | The order of the two slaves matters exactly if both are data devices and one could be the hash tree's |
| Recovery.MountPointRoundTrip | apexd/apex_database.cpp:112-127 | Printing and parsing a mount point are inverse for names without '@' and '/' and 32-bit versions |
| Recovery.TempMountPointParses | apexd/apex_database.cpp:112-127 | A temp mount point gives back the name but not the version |
| Recovery.NormalizedPrinted | apexd/apex_database.cpp:184-197 | The mark that the kernel adds to a deleted backing file is removed and recorded |
| Recovery.ShownIsRecovered | apexd/apex_database.cpp:199-240 | A line and sysfs that show an entry recover exactly that entry |
| Recovery.RebuiltEqualsRunning | apexd/apex_database.cpp:263-299 | The rebuilt database equals the running one on mounts that are not temp mounts, up to the deleted flag, for any order of the table and of the slaves; rebuilding never aborts |
| PackageIdMinor.ComputePackageIdMinor | apexd/apexd.cpp:3727-3772 | Terminates; fails exactly for a malformed device name or more than three devices; else returns the first minor, counting up and around, whose file does not exist |
| PackageIdMinor.ResultIsFresh | apexd/apexd.cpp:3727-3772 | Neither the id with this minor nor the next one is a dm device, exactly unless a device has the largest minor and the search reaches the one below it |
| PackageIdMinor.NewIdMinor | apexd/apexd.cpp:3737-3750 | The minor is read back from the device name, whatever the package name |
| PackageIdMinor.StartIsAbove | apexd/apexd.cpp:3751-3753 | Every minor in use is below the first one tried, except the largest size_t |
| PackageIdMinor.FewFilesFresh | apexd/apexd.cpp:3760-3771 | A bound on the number of files, which a caller can check, makes the search end and its result fresh |
| PackageIdMinor.FewFilesLeaveOneFree | apexd/apexd.cpp:3760-3769 | Different minors have different target files, so few files leave a minor free |
| PackageIdMinor.StaleExample | apexd/apexd.cpp:3751-3753 | Two devices for which the result is not fresh |
| Naming.Int32 | apexd/apexd.cpp:2703-2704 | Narrowing keeps the residue modulo 2^32 and is the identity on 32-bit values |
| Naming.PackageIdInjective | apexd/apex_manifest.cpp:50-52 | A package id determines name and version, whatever characters the name holds |
| Packages.FileNameDeterminesPackage | apexd/apexd.cpp:2200-2206 | Two packages staged under one file name have the same name and version |
| Naming.ParseIntOfToString | apexd/apex_database.cpp:112-123 | Decimal printing and parsing of versions are inverse exactly on 32-bit versions |
| Naming.ParseUintOfDigits | apexd/apexd.cpp:3747-3750 | Decimal printing and parsing of minors are inverse |
| Digest.HexToBin | apexd/apexd_verity.cpp:52-60 | The bytes that the pairs of digits denote; a last odd digit is dropped |
| Digest.BytesToHex | apexd/apexd_verity.cpp:204-212 | Two lower-case digits for each byte, which render it |
| Digest.DigestRoundTrips | apexd/apexd_verity.cpp:46-212 | Decoding undoes encoding on all byte strings, and encoding undoes decoding on even-length lower-case hex |
| Digest.HexComparesBytes | apexd/apexd_verity.cpp:204-212 | Comparing hex digests is comparing bytes |

## Left out

- I/O errors other than crashes in the storage operations: a link, unlink or rename that fails without a crash.
- A torn commit: `UpdateStateAndCommit` truncates and writes a file; a commit is one atomic write here.
- That a revert finishes eventually: power may be lost at every boot, so only the boots that get through are spoken of.
- Updates.Apexd.Run: leaves out restarts of the daemon without a boot (apexd/apexd_main.cpp:170-178), after which requests could meet a revert that a crash of the daemon interrupted.
- Updates.Apexd.BootUntilStaged: active files that open, no checkpoints, activation does not fail.
- Updates.Apexd.SubmitRunRevert: runs on which activation fails, or in which something was reverted already, since then the session is no longer in play; and what exactly comes back after a later submission that was cut, of which `BackupAfterCut` says what it can be.
- SharedLibs.Sorted: a stable insertion by the comparator stands for the library's sort, whose result is not defined where the comparator is not a strict weak order.
- Races between binder threads on session files: requests are served one at a time.
- Kernel and device work (loop, device-mapper, mount, SELinux, f2fs): steps that succeed or fail and name devices.
- Cryptography and archive parsing: an APEX is a record of name, version, key, digest and flags; the boot and install checks and the shim test are uninterpreted predicates.
- Shim validation inside `ActivatePackageImpl`: its failure looks like a refused mount.
- The data store as AddDataApex leaves it during a boot that then resumes a revert still lists files the revert removed; activation then fails for them and the fallback applies.
- WholeBoot.StartUp: takes the list of files to activate as given; that the repository's data store lists what `Updates.Apexd` has in the active directory is not part of the model.
- DE and CE data snapshots, class path derivation, VNDK and VINTF checks, apex-info-list, logging, system properties.
- `gChangedActiveApexes`, file modes, error texts (except those a session keeps), release of compressed blocks.
- Block APEXes and the VM start path, so `GetPublicKey` looks at pre-installed APEXes only.
- `UnstagePackages`; `RemountPackages`; the steps of `InstallPackage` other than the minor.
- Updates.Apexd.BootCompletedCleanup: covers files and sessions, not the deletion of unused verity devices.
- Naming.ParseUint: only plain decimal input; the library function also takes leading blanks, a plus sign and 0x.
- Naming.ParseInt: only plain decimal input with an optional minus sign, likewise.
- Selection.CalculateSizeForCompressedApex: sums in unbounded integers; an overflow of the int64 sum is not modelled.
- Selection.SelectApexForActivation: takes the directories for granted: the data directory is neither the decompression directory nor a built-in one (`ApartOnDisk`).
- Selection.ReservationAgrees: versions fit in 32 bits, since outside that range the selection itself goes wrong.
- BootFallback.EveryPackageIsMounted: leaves out a package with a compressed file on /data, and pre-installed copies that cannot be decompressed, which the list drops silently.
- Recovery.RebuiltEqualsRunning: names without '@', '/' and blanks, 32-bit versions, and backing paths that do not end like the kernel's mark.
- PackageIdMinor.ResultIsFresh: supposes that some minor below the largest size_t is free; `FewFilesLeaveOneFree` gives that from the number of files.
- Python packaging tools, the Rust wrapper and the Java host tests.
