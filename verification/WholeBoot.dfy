/** A boot from end to end: what OnStart does to sessions and directories, joined with the activation of packages,
    whose error decides whether it reverts (apexd/apexd.cpp:2903-3000). */
module WholeBoot {
  import opened Storage
  import opened Rollback
  import opened Repository
  import opened MountedApexes
  import opened Activation
  import opened ActivationResult
  import opened BootFallback
  import opened SessionLifecycle
  import Updates

  /** Activation of `files` by workers that went through `phase` and reported `results`: it fails if and only if
      an activation or a contribution did, and else every package of the list is mounted. */
  method Activate(files: seq<ApexFile>, ghost phase: Phase, results: seq<seq<Outcome>>,
                  mounts: map<Job, SharedLibs.Contributor>, libs: SharedLibs.SharedLibsDir, w: SharedLibs.World)
    returns (failed: bool, ghost c: Contributions)
    requires IsPhase(phase, files)
    requires results == Run(phase.start, phase.schedule).results && MountsOf(mounts, results)
    modifies libs
    ensures Contributed(c, results, mounts, w, old(libs.links), libs.links)
    ensures failed <==> ActivationFailed(results, c.oks)
    ensures !failed ==> forall f :: f in files ==> Entries(Run(phase.start, phase.schedule).db, f.apex.name) != []
  {
    hide Run, MountsOf, Contributed;
    var _, _, _, error, contributions := FinishActivation(results, mounts, libs, w);
    failed, c := error, contributions;
    forall f | f in files && !failed ensures Entries(Run(phase.start, phase.schedule).db, f.apex.name) != [] {
      UnmountedIsReported(phase, files, f);
    }
  }

  /** A boot: staging, activation, and a revert if activation failed. */
  method StartUp(apexd: Updates.Apexd, needsRollback: bool, files: seq<ApexFile>, ghost phase: Phase,
                 results: seq<seq<Outcome>>, mounts: map<Job, SharedLibs.Contributor>, libs: SharedLibs.SharedLibsDir,
                 w: SharedLibs.World)
    returns (failed: bool, rebooting: bool, ghost order: seq<int>, ghost ready: Disk, ghost c: Contributions)
    requires apexd.Valid() && IsPhase(phase, files)
    requires results == Run(phase.start, phase.schedule).results && MountsOf(mounts, results)
    modifies apexd`disk, apexd`power, apexd`history, libs
    ensures apexd.Ran()
    ensures Contributed(c, results, mounts, w, old(libs.links), libs.links)
    ensures failed <==> ActivationFailed(results, c.oks)
    ensures !failed ==> forall f :: f in files ==> Entries(Run(phase.start, phase.schedule).db, f.apex.name) != []
    ensures apexd.power > 0 ==>
      && apexd.ReadyToActivate(old(apexd.disk), ready, order, apexd.fsCheckpoints && needsRollback)
      && (rebooting <==> failed && apexd.CanRevert(ready))
      && apexd.disk == apexd.AfterActivation(ready, failed)
  {
    hide Run, IsPhase, MountsOf, Contributed, ActivationFailed, Entries, LegalRun;
    hide Reverting, RevertOver, RevertLeaves, FailingOnly, AtRest, RevertCost;
    hide Updates.Apexd.ReadyToActivate, Updates.Apexd.CanRevert, Updates.Apexd.AfterActivation;
    hide Updates.Apexd.Within, Updates.Apexd.ScanCost, Updates.Apexd.RevertBound, Updates.Apexd.Scope;
    hide Updates.Apexd.Idle, Updates.Apexd.Steady, Updates.Apexd.BootsLeave;
    order := apexd.PrepareBoot(needsRollback);
    ready := apexd.disk;
    failed, c := Activate(files, phase, results, mounts, libs, w);
    rebooting := apexd.RevertIfFailed(failed);
  }
}
