/** Staging, backup, restore and revert of APEX packages, and the boot sequence around them
    (apexd/apexd.cpp, apexd/apexd_session.cpp). Every method runs under a power budget: `power` is the
    number of disk writes left before the device loses power, and once it is 0 no write takes effect.
    So a contract that holds for every budget holds for a crash between any two writes. */
module Updates {
  import opened Basics
  import opened Packages
  import opened Storage
  import opened SessionLifecycle
  import opened Rollback
  import opened BackupHistory
  import opened InterruptedBoots

  class Apexd {
    const fsCheckpoints: bool
    const fingerprint: string
    const bootVerified: Apex -> bool
    const installVerified: Apex -> bool
    const isShim: Apex -> bool
    const sessionFiles: map<int, Dir>

    var inCheckpoint: bool
    var disk: Disk
    var power: nat

    /** Every disk since the run began, in order. */
    ghost var history: seq<Disk>

    ghost predicate Valid()
      reads this
    {
      LegalRun(history) && history[|history| - 1] == disk && (inCheckpoint ==> fsCheckpoints)
    }

    /** What holds between any two moments of a run: writes only add to the history and use up
        power, and without power nothing changes. */
    twostate predicate Ran()
      reads this
    {
      && Valid() && old(history) <= history && power <= old(power)
      && (old(power) == 0 ==> disk == old(disk))
    }

    method Do(w: Write)
      requires Valid()
      requires power > 0 ==> Legal(disk, w)
      modifies `disk, `power, `history
      ensures Ran()
      ensures old(power) > 0 ==> power == old(power) - 1 && disk == Apply(old(disk), w)
    {
      if power > 0 {
        LegalWriteIsLegalStep(disk, w);
        power := power - 1;
        disk := Apply(disk, w);
        history := history + [disk];
      }
    }

    // ---------- Staging ----------

    /** Opens every input, or fails. */
    method OpenApexFiles(inputs: seq<Inode>) returns (r: Option<seq<Apex>>)
      ensures r.Some? <==> inputs != [] && Readable(inputs)
      ensures r.Some? ==> r.value == Opened(inputs)
    {
      if inputs == [] {
        return None;
      }
      var xs := [];
      for i := 0 to |inputs|
        invariant Readable(inputs[..i]) && xs == Opened(inputs[..i])
      {
        if inputs[i].Unreadable? {
          return None;
        }
        xs := xs + [inputs[i].apex];
        assert inputs[..i + 1] == inputs[..i] + [inputs[i]];
      }
      assert inputs[..|inputs|] == inputs;
      r := Some(xs);
    }

    /** Inputs that pass every check StagePackages makes before it touches the disk. */
    ghost predicate Stageable(inputs: seq<Inode>) {
      inputs != [] && Readable(inputs) &&
        forall i :: 0 <= i < |inputs| ==> isShim(inputs[i].apex) || bootVerified(inputs[i].apex)
    }

    method RemovePreviouslyActiveApexFiles(affected: set<string>, keep: set<string>) returns (ok: bool)
      requires Valid() && disk.active.Some?
      modifies `disk, `power, `history
      ensures Ran()
      ensures disk == old(disk).(active := disk.active) && disk.active.Some?
      ensures PartlyPruned(old(disk).active.value, disk.active.value, affected, keep)
      ensures ok <==> AllReadable(old(disk).active.value)
      ensures power > 0 && ok ==> disk.active.value == Prune(old(disk).active.value, affected, keep)
      ensures old(power) <= power + |old(disk).active.value|
    {
      hide IsApexFile, PrunedUpTo, PartlyPruned, Prune, AllReadable;
      var dir := disk.active.value;
      var files := List(set n | n in dir && IsApexFile(n));
      ok := true;
      NothingPruned(dir, files, affected, keep);
      ApexFilesAreFew(dir);
      for i := 0 to |files|
        invariant Ran() && old(power) <= power + i
        invariant disk == old(disk).(active := disk.active) && disk.active.Some?
        invariant PrunedUpTo(dir, disk.active.value, files, i, affected, keep, power > 0)
      {
        var n := files[i];
        ghost var cut, live := disk.active.value, power > 0;
        if dir[n].Unreadable? {
          UnreadableStops(dir, cut, files, i, affected, keep, live);
          return false;
        }
        if dir[n].apex.name in affected && n !in keep {
          Do(UnlinkActive(n));
        }
        OneMorePruned(dir, cut, disk.active.value, files, i, affected, keep, live, power > 0);
      }
      AllPruned(dir, disk.active.value, files, affected, keep, power > 0);
    }

    /** StagePackages: hard links every input into the active directory and removes the other files
        of the same packages. */
    method StagePackages(inputs: seq<Inode>) returns (ok: bool)
      requires Valid()
      modifies `disk, `power, `history
      ensures Ran()
      ensures !Stageable(inputs) ==> !ok && disk == old(disk)
      ensures Stageable(inputs) ==> StageCut(old(disk), disk, Opened(inputs))
      ensures Stageable(inputs) && power > 0 ==>
        (ok <==> OthersReadable(Files(old(disk).active), Opened(inputs)))
      ensures Stageable(inputs) && power > 0 && ok ==> disk == Staged(old(disk), Opened(inputs))
      ensures Stageable(inputs) && power > 0 && !ok ==>
        && disk.active.Some?
        && disk == Promoted(old(disk), Ids(Opened(inputs))).(active := disk.active)
        && PartlyPruned(Linked(Files(old(disk).active), Opened(inputs)), disk.active.value,
            Names(Opened(inputs)), Dests(Opened(inputs)))
      ensures old(power) <= power +
        if Stageable(inputs) then StageCost(Files(old(disk).active), Opened(inputs)) else 0
    {
      hide FileName, IsApexFile, StageCut, Staged, Promoted, Linked, Names, Ids;
      var files := OpenApexFiles(inputs);
      if files.None? {
        return false;
      }
      var xs := files.value;
      var verified := VerifyForBoot(xs);
      if !verified {
        return false;
      }
      ghost var base := disk;
      var stagedFiles, stagedPackages := LinkAll(xs);
      LinkedReadable(Files(base.active), xs);
      StagedSoFarIsLinked(base, xs);
      ok := false;
      if disk.active.Some? {
        ghost var linked := disk;
        ok := RemovePreviouslyActiveApexFiles(stagedPackages, stagedFiles);
        CutThenPrune(base, linked, disk.active.value, xs);
      }
    }

    method VerifyForBoot(xs: seq<Apex>) returns (ok: bool)
      ensures ok <==> forall i :: 0 <= i < |xs| ==> isShim(xs[i]) || bootVerified(xs[i])
    {
      for i := 0 to |xs|
        invariant forall j :: 0 <= j < i ==> isShim(xs[j]) || bootVerified(xs[j])
      {
        if !isShim(xs[i]) && !bootVerified(xs[i]) {
          return false;
        }
      }
      ok := true;
    }

    /** Links every package and says which files and which packages it staged. */
    method LinkAll(xs: seq<Apex>) returns (stagedFiles: set<string>, stagedPackages: set<string>)
      requires Valid()
      modifies `disk, `power, `history
      ensures Ran() && StageCut(old(disk), disk, xs)
      ensures stagedFiles == Dests(xs) && stagedPackages == Names(xs)
      ensures power > 0 ==> disk == StagedSoFar(old(disk), xs, |xs|)
      ensures old(power) <= power + 1 + 3 * |xs|
    {
      hide FileName, IsApexFile;
      ghost var base := disk;
      StageStarts(base, xs);
      CutThenWrite(base, disk, MakeActive, xs);
      Do(MakeActive);
      stagedFiles, stagedPackages := {}, {};
      hide StageCut, StagedSoFar, Apply, Linked;
      for i := 0 to |xs|
        invariant Ran() && StageCut(base, disk, xs) && old(power) <= power + 1 + 3 * i
        invariant stagedFiles == Dests(xs[..i]) && stagedPackages == Names(xs[..i])
        invariant power > 0 ==> disk == StagedSoFar(base, xs, i)
      {
        StageOne(base, xs, i);
        StagePrefixStep(base, xs, i);
        stagedFiles, stagedPackages := stagedFiles + {FileName(xs[i])}, stagedPackages + {xs[i].name};
      }
      assert xs[..|xs|] == xs;
    }

    /** One turn of the staging loop: promote the hash tree, then replace the file. */
    method StageOne(ghost base: Disk, xs: seq<Apex>, i: nat)
      requires Valid() && i < |xs| && StageCut(base, disk, xs)
      requires power > 0 ==> disk == StagedSoFar(base, xs, i)
      modifies `disk, `power, `history
      ensures Ran() && StageCut(base, disk, xs)
      ensures power > 0 ==> disk == StagedSoFar(base, xs, i + 1)
      ensures old(power) <= power + 3
    {
      hide FileName;
      hide Apply;
      hide StageCut;
      hide StagedSoFar;
      StageTurn(base, xs, i);
      var id, dest := xs[i].Id(), FileName(xs[i]);
      assert id in Ids(xs) && dest in Dests(xs);
      UnpromotedTree(disk, id);
      if id in disk.newTrees {
        CutThenWrite(base, disk, PromoteTree(id), xs);
        Do(PromoteTree(id));
      }
      UnlinkThenLink(disk, dest, Package(xs[i]));
      if dest in Files(disk.active) {
        CutThenWrite(base, disk, UnlinkActive(dest), xs);
        Do(UnlinkActive(dest));
      }
      CutThenWrite(base, disk, LinkActive(dest, Package(xs[i])), xs);
      Do(LinkActive(dest, Package(xs[i])));
    }

    // ---------- Backup and restore ----------

    /** DeleteBackup: empties the backup directory, if there is one. */
    method DeleteBackup()
      requires Valid()
      modifies `disk, `power, `history
      ensures Ran() && disk == old(disk).(backup := disk.backup)
      ensures disk.backup.Some? <==> old(disk).backup.Some?
      ensures SubDir(Files(disk.backup), Files(old(disk).backup))
      ensures power == Left(old(power), |Files(old(disk).backup)|)
      ensures |Files(disk.backup)| == Left(|Files(old(disk).backup)|, old(power))
    {
      if disk.backup.None? {
        return;
      }
      hide EmptiedSoFar, SubDir;
      var dir := disk.backup.value;
      var files := List(dir.Keys);
      ghost var removed := 0;
      NothingEmptied(dir, files);
      for i := 0 to |files|
        invariant Ran() && disk == old(disk).(backup := disk.backup) && disk.backup.Some?
        invariant removed <= i && power == old(power) - removed && (power > 0 ==> removed == i)
        invariant EmptiedSoFar(dir, disk.backup.value, files, i, removed)
      {
        OneMoreEmptied(dir, disk.backup.value, files, i, removed);
        removed := if power > 0 then removed + 1 else removed;
        Do(UnlinkBackup(files[i]));
      }
      AllEmptied(dir, disk.backup.value, files, removed);
    }

    /** BackupActivePackages: replaces the backup by hard links to the active APEX files. */
    method BackupActivePackages() returns (ok: bool)
      requires Valid()
      modifies `disk, `power, `history
      ensures Ran() && disk == old(disk).(backup := disk.backup)
      ensures old(disk).active.None? ==> ok && Files(disk.backup) == Files(old(disk).backup)
      ensures old(disk).active.Some? ==> BackupCut(old(disk).backup, old(disk).active.value, disk.backup)
      ensures power > 0 || old(disk).backup.Some? ==> disk.backup.Some?
      ensures power > 0 && old(disk).active.Some? ==>
        && (ok <==> Backupable(old(disk).active.value))
        && (ok ==> IsBackup(old(disk).active.value, disk.backup.value))
        && (!ok ==> disk.backup.value == map[])
      ensures old(disk).active.Some? && Backupable(old(disk).active.value) ==>
        && power == Left(old(power), BackupCost(old(disk).backup, old(disk).active.value))
        && BackupAt(old(disk).backup, old(disk).active.value, old(power), disk.backup)
      ensures old(power) <= power + BackupBound(old(disk).backup, old(disk).active)
    {
      hide BackupAt, BackupCut, IsBackup, Backupable, ApexFiles;
      ghost var before := disk.backup;
      if disk.backup.None? {
        Do(MakeBackup);
      }
      ghost var made, left := disk.backup, power;
      if disk.active.None? {
        return true;
      }
      ok := ReplaceBackup(disk.active.value);
      FirstBackup(before, old(power), made, left, disk.active.value, disk.backup);
    }

    /** BackupActivePackages once the directory is there: empties it and copies. */
    method ReplaceBackup(dir: Dir) returns (ok: bool)
      requires Valid() && (power > 0 ==> disk.backup.Some?)
      modifies `disk, `power, `history
      ensures Ran() && disk == old(disk).(backup := disk.backup)
      ensures BackupCut(old(disk).backup, dir, disk.backup)
      ensures power > 0 ==> disk.backup.Some?
      ensures power > 0 ==>
        && (ok <==> Backupable(dir))
        && (ok ==> IsBackup(dir, disk.backup.value))
        && (!ok ==> disk.backup.value == map[])
      ensures Backupable(dir) && old(disk).backup.Some? ==>
        && power == Left(old(power), BackupCost(old(disk).backup, dir))
        && BackupAt(old(disk).backup, dir, old(power), disk.backup)
      ensures old(power) <= power + |Files(old(disk).backup)| + 2 * |ApexFiles(dir)|
    {
      hide IsApexFile, FileName, Backupable, IsBackup, PartialBackup, HoldsApex;
      var files := List(ApexFiles(dir));
      DeleteBackup();
      ghost var emptied := disk.backup;
      ok := LinkBackups(dir, files);
      ghost var linked := disk.backup;
      if !ok {
        DeleteBackup();
      }
      PartOfPartial(dir, Files(linked), Files(disk.backup));
    }

    /** The copying loop of BackupActivePackages. */
    method LinkBackups(dir: Dir, files: seq<string>) returns (ok: bool)
      requires Valid() && IsListing(files, ApexFiles(dir)) && |files| == |ApexFiles(dir)|
      requires power > 0 ==> disk.backup == Some(map[])
      modifies `disk, `power, `history
      ensures Ran() && disk == old(disk).(backup := disk.backup)
      ensures disk.backup == old(disk).backup || (disk.backup.Some? && PartialBackup(dir, disk.backup.value))
      ensures power > 0 ==> disk.backup.Some?
      ensures power > 0 ==> (ok <==> Backupable(dir))
      ensures power > 0 && ok ==> IsBackup(dir, disk.backup.value)
      ensures old(disk).backup == Some(map[]) && Backupable(dir) ==>
        && ok && power == Left(old(power), |files|)
        && disk.backup.Some? && PartialBackup(dir, disk.backup.value)
        && (IsBackup(dir, disk.backup.value) <==> old(power) >= |files|)
      ensures old(power) <= power + |files|
      ensures power > 0 ==> |disk.backup.value| <= |files|
    {
      hide IsApexFile, FileName, Backupable, IsBackup, PartialBackup, LinkedSoFar;
      ghost var before, n := disk.backup, 0;
      NothingLinked(dir, files, before);
      for i := 0 to |files|
        invariant Ran() && disk == old(disk).(backup := disk.backup)
        invariant n <= i && power == old(power) - n && (power > 0 ==> n == i)
        invariant LinkedSoFar(dir, files, before, disk.backup, n) && (power > 0 ==> disk.backup.Some?)
      {
        var f := dir[files[i]];
        LinkTurn(dir, files, before, disk.backup, n, i);
        if f.Unreadable? || FileName(f.apex) in Files(disk.backup) {
          AllLinked(dir, files, before, disk.backup, n);
          return false;
        }
        n := if power > 0 then n + 1 else n;
        Do(LinkBackup(FileName(f.apex), f));
      }
      ok := true;
      AllLinked(dir, files, before, disk.backup, n);
    }

    /** RestoreActivePackages: empties the active directory and renames the backup over it. */
    method RestoreActivePackages() returns (ok: bool)
      requires Valid()
      modifies `disk, `power, `history
      ensures Ran()
      ensures ok <==> old(disk).backup.Some? && old(disk).active.Some?
      ensures !ok ==> disk == old(disk)
      ensures ok ==> RestoreCut(old(disk), disk)
      ensures power > 0 && ok ==> disk == old(disk).(active := old(disk).backup, backup := None)
      ensures old(power) <= power + if ok then |old(disk).active.value| + 1 else 0
    {
      if disk.backup.None? || disk.active.None? {
        return false;
      }
      var dir := disk.active.value;
      var files := List(dir.Keys);
      for i := 0 to |files|
        invariant Ran() && disk == old(disk).(active := disk.active) && disk.active.Some?
        invariant SubDir(disk.active.value, dir) && old(power) <= power + i
      {
        Do(UnlinkActive(files[i]));
      }
      Do(RenameBackupToActive);
      ok := true;
    }

    // ---------- Revert ----------

    /** Commits the in-memory copies of some sessions, one after the other. */
    method CommitAll(ids: seq<int>, copies: Sessions)
      requires Valid() && IsListing(ids, Elements(ids)) && Elements(ids) <= copies.Keys
      requires power > 0 ==> forall id :: id in ids ==> Edge(StateOf(disk, id), Some(copies[id].state))
      modifies `disk, `power, `history
      ensures Ran() && disk == old(disk).(sessions := disk.sessions)
      ensures CommittedSome(old(disk).sessions, disk.sessions, copies, Elements(ids))
      ensures power > 0 ==> forall id :: id in ids ==> Get(disk.sessions, id) == Some(copies[id])
      ensures old(power) <= power + |ids|
    {
      for i := 0 to |ids|
        invariant old(power) <= power + i
        invariant Ran() && disk == old(disk).(sessions := disk.sessions)
        invariant CommittedSome(old(disk).sessions, disk.sessions, copies, Elements(ids))
        invariant forall j :: i <= j < |ids| ==> Get(disk.sessions, ids[j]) == Get(old(disk).sessions, ids[j])
        invariant power > 0 ==> forall j :: 0 <= j < i ==> Get(disk.sessions, ids[j]) == Some(copies[ids[j]])
      {
        assert ids[i] in ids;
        Do(Commit(ids[i], copies[ids[i]]));
      }
    }

    /** RevertActiveSessions: puts every session that is still in play, and the active directory,
        back to where they were. */
    method RevertActiveSessions(crashingProcess: string, errorMessage: string) returns (ok: bool)
      requires Valid()
      modifies `disk, `power, `history
      ensures Ran()
      ensures Revertible(old(disk).sessions) == {} ==> !ok && disk == old(disk)
      ensures Revertible(old(disk).sessions) != {} ==> RevertLeaves(old(disk), disk, fsCheckpoints)
      ensures power > 0 && Revertible(old(disk).sessions) != {} ==>
        disk == Reverted(old(disk), fsCheckpoints, crashingProcess, errorMessage)
      ensures power > 0 && Revertible(old(disk).sessions) != {} ==>
        (ok <==> fsCheckpoints || (old(disk).backup.Some? && old(disk).active.Some?))
      ensures old(power) <= power + RevertCost(old(disk))
    {
      hide MarkedAll, Retagged, CommittedSome, RevertLeaves, RestoreCut, Reverted, Edge, StateOf;
      ghost var start, ss := disk, disk.sessions;
      var ids := List(Revertible(disk.sessions));
      assert Elements(ids) == Revertible(ss);
      if ids == [] {
        return false;
      }
      assert ids[0] in Revertible(ss);
      hide Revertible, Elements;
      MarksAreLegal(start, crashingProcess, errorMessage);
      var copies := MarkedAll(disk.sessions, crashingProcess, errorMessage, REVERT_IN_PROGRESS);
      CommitAll(ids, copies);
      ghost var live1, marked := power > 0, disk;
      ghost var marks := copies;
      if live1 {
        NothingCommitted(ss, marks);
        CommittedAll(ss, ss, disk.sessions, marks, crashingProcess, errorMessage, REVERT_IN_PROGRESS);
      }
      ok := true;
      if !fsCheckpoints {
        ok := RestoreActivePackages();
      }
      ghost var live2, restored := power > 0, disk;
      RetaggedMarks(ss, crashingProcess, errorMessage, if ok then REVERTED else REVERT_FAILED);
      copies := Retagged(copies, if ok then REVERTED else REVERT_FAILED);
      if live1 {
        EndsAreLegal(ss, restored, crashingProcess, errorMessage, if ok then REVERTED else REVERT_FAILED);
      }
      CommitAll(ids, copies);
      if power > 0 {
        CommittedAll(ss, restored.sessions, disk.sessions, marks, crashingProcess, errorMessage,
                     if ok then REVERTED else REVERT_FAILED);
      }
      RevertParts(start, marked, restored, disk, live1, live2, fsCheckpoints, ok, crashingProcess, errorMessage);
    }

    // ---------- Boot ----------

    /** The sessions that a boot tries to activate. */
    function Scope(ss: Sessions): set<int> {
      set id | id in ss && (ss[id].state == STAGED || (fsCheckpoints && ss[id].state == ACTIVATED))
    }

    ghost predicate OneApexEach(dirs: seq<int>) {
      forall i :: 0 <= i < |dirs| ==> dirs[i] in sessionFiles && |ApexFiles(sessionFiles[dirs[i]])| == 1
    }

    ghost function InputsOf(dirs: seq<int>): (inputs: seq<Inode>)
      requires OneApexEach(dirs)
      ensures |inputs| == |dirs|
    {
      seq(|dirs|, i requires 0 <= i < |dirs| => OnlyApex(sessionFiles[dirs[i]]))
    }

    /** Everything a boot checks before it stages a session. */
    ghost predicate Eligible(id: int, s: Session)
      reads `inCheckpoint
    {
      && s.fingerprint == fingerprint
      && (fsCheckpoints ==> inCheckpoint)
      && OneApexEach(DirsOf(id, s))
      && Stageable(InputsOf(DirsOf(id, s)))
    }

    ghost function PackagesOf(id: int, s: Session): seq<Apex>
      requires Eligible(id, s)
      reads `inCheckpoint
    {
      Opened(InputsOf(DirsOf(id, s)))
    }

    /** The most writes that staging a session makes. */
    ghost function SessionCost(dir: Dir, id: int, s: Session): nat
      reads `inCheckpoint
    {
      if Eligible(id, s) then StageCost(dir, PackagesOf(id, s)) else 0
    }

    /** The disk after staging the eligible sessions of `order`, one after the other. */
    ghost function StagedAll(d: Disk, order: seq<int>, ss: Sessions): Disk
      requires forall id :: id in order ==> id in ss
      reads `inCheckpoint
    {
      if order == [] then d
      else
        var id := order[|order| - 1];
        var e := StagedAll(d, order[..|order| - 1], ss);
        if Eligible(id, ss[id]) then Staged(e, PackagesOf(id, ss[id])) else e
    }

    /** Finds the one APEX file in each of the session's directories. */
    method FindApexes(dirs: seq<int>) returns (r: Option<seq<Inode>>)
      ensures r.Some? <==> OneApexEach(dirs)
      ensures r.Some? ==> r.value == InputsOf(dirs)
    {
      hide IsApexFile;
      var apexes := [];
      for i := 0 to |dirs|
        invariant OneApexEach(dirs[..i]) && apexes == InputsOf(dirs[..i])
      {
        assert dirs[..i + 1] == dirs[..i] + [dirs[i]];
        if dirs[i] !in sessionFiles {
          return None;
        }
        var dir := sessionFiles[dirs[i]];
        var scan := List(ApexFiles(dir));
        if |scan| != 1 {
          return None;
        }
        assert ApexFiles(dir) == {scan[0]};
        apexes := apexes + [dir[scan[0]]];
      }
      assert dirs[..|dirs|] == dirs;
      r := Some(apexes);
    }

    /** Checks and stages one session; `after` is the session to commit. */
    method StageSession(id: int, session: Session) returns (after: Session)
      requires Valid()
      modifies `disk, `power, `history
      ensures Ran() && disk.backup == old(disk).backup && disk.sessions == old(disk).sessions
      ensures old(disk).active.Some? ==> disk.active.Some?
      ensures ActivationOutcome(session, after)
      ensures !Eligible(id, session) ==> disk == old(disk) && after.state == ACTIVATION_FAILED
      ensures Eligible(id, session) ==> StageCut(old(disk), disk, PackagesOf(id, session))
      ensures power > 0 && Eligible(id, session) && AllReadable(Files(old(disk).active)) ==>
        disk == Staged(old(disk), PackagesOf(id, session)) && after.state == ACTIVATED
      ensures old(power) <= power + SessionCost(Files(old(disk).active), id, session)
    {
      hide FileName, IsApexFile, Staged, StageCut, Promoted, Linked;
      if session.fingerprint != fingerprint {
        return Failed(session, "APEX build fingerprint has changed");
      }
      if fsCheckpoints && !inCheckpoint {
        return Failed(session, "Cannot install apex session if not in fs-checkpoint mode");
      }
      var apexes := FindApexes(DirsOf(id, session));
      if apexes.None? {
        return Failed(session, "Expected exactly one APEX package in each session directory");
      }
      ghost var start := disk;
      var staged := StagePackages(apexes.value);
      if Stageable(apexes.value) {
        StageCutFrame(start, disk, Opened(apexes.value));
        ReadableInputs(Files(start.active), Opened(apexes.value));
      }
      after := if staged then session.(state := ACTIVATED) else Failed(session, "Activation failed");
    }

    /** One turn of ScanStagedSessionsDirAndStage. */
    method ActivateSession(id: int)
      requires Valid() && id in Scope(disk.sessions)
      modifies `disk, `power, `history
      ensures Ran()
      ensures disk.backup == old(disk).backup && (old(disk).active.Some? ==> disk.active.Some?)
      ensures disk.sessions == old(disk).sessions ||
        (id in disk.sessions && ActivationOutcome(old(disk).sessions[id], disk.sessions[id]) &&
         disk.sessions == old(disk).sessions[id := disk.sessions[id]])
      ensures power > 0 ==> id in disk.sessions && ActivationOutcome(old(disk).sessions[id], disk.sessions[id])
      ensures TurnOf(old(disk), disk, id)
      ensures power > 0 && !Eligible(id, old(disk).sessions[id]) ==>
        disk == old(disk).(sessions := disk.sessions) && disk.sessions[id].state == ACTIVATION_FAILED
      ensures power > 0 && Eligible(id, old(disk).sessions[id]) && AllReadable(Files(old(disk).active)) ==>
        && disk == Staged(old(disk), PackagesOf(id, old(disk).sessions[id])).(sessions := disk.sessions)
        && disk.sessions[id].state == ACTIVATED
      ensures old(power) <= power + SessionCost(Files(old(disk).active), id, old(disk).sessions[id]) + 1
      ensures Files(disk.active).Keys <= Files(old(disk).active).Keys + FileNamesOf(id, old(disk).sessions[id])
    {
      hide Staged, Eligible, PackagesOf, IsApexFile, StageCut;
      var session := disk.sessions[id];
      var after := StageSession(id, session);
      if Eligible(id, session) {
        SessionDests(id, session);
        CutKeys(old(disk), disk, PackagesOf(id, session));
      }
      Do(Commit(id, after));
    }

    /** One session, tried under any budget: it is committed only after it has been staged. */
    ghost predicate TurnOf(d: Disk, e: Disk, id: int)
      requires id in d.sessions
      reads `inCheckpoint
    {
      if e.sessions == d.sessions then
        if Eligible(id, d.sessions[id]) then StageCut(d, e, PackagesOf(id, d.sessions[id])) else e == d
      else
        && id in e.sessions && e.sessions == d.sessions[id := e.sessions[id]]
        && ActivationOutcome(d.sessions[id], e.sessions[id])
        && if Eligible(id, d.sessions[id]) then
             AllReadable(Files(d.active)) ==>
               e == Staged(d, PackagesOf(id, d.sessions[id])).(sessions := e.sessions) &&
               e.sessions[id].state == ACTIVATED
           else e == d.(sessions := e.sessions) && e.sessions[id].state == ACTIVATION_FAILED
    }

    /** What holds of the sessions tried so far, if no power was lost. */
    ghost predicate Tried(start: Disk, d: Disk, ids: seq<int>)
      requires forall id :: id in ids ==> id in start.sessions
      reads `inCheckpoint
    {
      && (forall id :: id in ids ==>
           id in d.sessions && ActivationOutcome(start.sessions[id], d.sessions[id]) &&
           (!Eligible(id, start.sessions[id]) ==> d.sessions[id].state == ACTIVATION_FAILED))
      && (AllReadable(Files(start.active)) ==>
           && d == StagedAll(start, ids, start.sessions).(sessions := d.sessions)
           && AllReadable(Files(d.active))
           && forall id :: id in ids ==> (d.sessions[id].state == ACTIVATED <==> Eligible(id, start.sessions[id])))
    }

    lemma TriedOneMore(start: Disk, d: Disk, e: Disk, ids: seq<int>, id: int)
      requires (forall k :: k in ids ==> k in start.sessions) && id in start.sessions && id !in ids
      requires Tried(start, d, ids) && Get(d.sessions, id) == Some(start.sessions[id])
      requires id in e.sessions && e.sessions == d.sessions[id := e.sessions[id]]
      requires ActivationOutcome(start.sessions[id], e.sessions[id])
      requires !Eligible(id, start.sessions[id]) ==>
        e == d.(sessions := e.sessions) && e.sessions[id].state == ACTIVATION_FAILED
      requires Eligible(id, start.sessions[id]) && AllReadable(Files(d.active)) ==>
        e == Staged(d, PackagesOf(id, start.sessions[id])).(sessions := e.sessions) && e.sessions[id].state == ACTIVATED
      ensures Tried(start, e, ids + [id])
    {
      hide Staged, IsApexFile, Eligible, PackagesOf;
      assert (ids + [id])[..|ids|] == ids;
      if AllReadable(Files(start.active)) && Eligible(id, start.sessions[id]) {
        StagedReadable(d, PackagesOf(id, start.sessions[id]));
        StagedIgnoresSessions(StagedAll(start, ids, start.sessions), d.sessions, PackagesOf(id, start.sessions[id]));
      }
    }

    /** The packages of the sessions that a boot will stage. */
    ghost function PlanOf(ss: Sessions): Plan
      reads `inCheckpoint
    {
      map id | id in Scope(ss) && Eligible(id, ss[id]) :: PackagesOf(id, ss[id])
    }

    /** Without checkpoints, and with active files that open. */
    predicate Steady(d: Disk) {
      !fsCheckpoints && AllReadable(Files(d.active))
    }

    /** The sessions `done` and then what is left, in whatever order, lead from `d` where what is left leads from
        `e`. */
    ghost predicate LeadsTo(d: Disk, e: Disk, done: seq<int>)
      requires Elements(done) <= d.sessions.Keys && Scope(e.sessions) <= d.sessions.Keys
      reads `inCheckpoint
    {
      forall rest | IsListing(rest, Scope(e.sessions)) ::
        StagedAll(Data(e), rest, d.sessions) == StagedAll(Data(d), done + rest, d.sessions)
    }

    /** Boots on `d`, each cut anywhere, have tried the sessions `done` in this order, and have perhaps begun
        with others: the others can still be tried as if they had not been begun. */
    ghost predicate LeaveInOrder(d: Disk, e: Disk, done: seq<int>)
      reads `inCheckpoint
    {
      && Scope(e.sessions) <= Scope(d.sessions) && IsListing(done, Scope(d.sessions) - Scope(e.sessions))
      && SessionsTried(d.sessions, e.sessions, done)
      && AllReadable(Files(e.active)) && LeadsTo(d, e, done)
    }

    ghost predicate BootsLeave(d: Disk, e: Disk)
      reads `inCheckpoint
    {
      exists done :: LeaveInOrder(d, e, done)
    }

    /** The sessions `done` have been tried, and each is ACTIVATED if and only if it could be staged; the others
        are as they were. */
    ghost predicate SessionsTried(before: Sessions, after: Sessions, done: seq<int>)
      requires Elements(done) <= before.Keys
      reads `inCheckpoint
    {
      && (forall id :: id !in done ==> Get(after, id) == Get(before, id))
      && (forall id :: id in done ==>
            && id in after && ActivationOutcome(before[id], after[id])
            && (after[id].state == ACTIVATED <==> Eligible(id, before[id])))
    }

    /** Staging some sessions and then others. */
    lemma {:induction false} StagedAllFrom(d: Disk, first: seq<int>, rest: seq<int>, ss: Sessions)
      requires Elements(first) + Elements(rest) <= ss.Keys
      ensures StagedAll(StagedAll(d, first, ss), rest, ss) == StagedAll(d, first + rest, ss)
      decreases rest
    {
      hide Staged, Eligible, PackagesOf;
      if rest == [] {
        assert first + rest == first;
      } else {
        var init := rest[..|rest| - 1];
        StagedAllFrom(d, first, init, ss);
        assert (first + rest)[..|first + rest| - 1] == first + init;
      }
    }

    lemma {:induction false} StagedAllSame(d: Disk, order: seq<int>, ss: Sessions, tt: Sessions)
      requires forall id :: id in order ==> id in ss && id in tt && ss[id] == tt[id]
      ensures StagedAll(d, order, ss) == StagedAll(d, order, tt)
    {
      hide Staged, Eligible, PackagesOf;
      if order != [] {
        StagedAllSame(d, order[..|order| - 1], ss, tt);
      }
    }

    lemma {:induction false} StagedAllData(d: Disk, order: seq<int>, ss: Sessions)
      requires Elements(order) <= ss.Keys
      ensures StagedAll(Data(d), order, ss) == Data(StagedAll(d, order, ss))
    {
      hide Staged, Eligible, PackagesOf;
      if order != [] {
        var id, init := order[|order| - 1], order[..|order| - 1];
        StagedAllData(d, init, ss);
        if Eligible(id, ss[id]) {
          StagedIgnoresSessions(StagedAll(d, init, ss), map[], PackagesOf(id, ss[id]));
        }
      }
    }

    /** A session that was begun and cut may be left to any later place in the order. */
    lemma {:induction false} CutThenAll(d: Disk, e: Disk, id: int, rest: seq<int>, ss: Sessions)
      requires id in ss && Eligible(id, ss[id]) && StageCut(d, e, PackagesOf(id, ss[id]))
      requires Elements(rest) <= ss.Keys && IsListing(rest, Elements(rest))
      ensures if id in rest then StagedAll(e, rest, ss) == StagedAll(d, rest, ss)
              else StageCut(StagedAll(d, rest, ss), StagedAll(e, rest, ss), PackagesOf(id, ss[id]))
      decreases rest
    {
      hide Staged, Eligible, PackagesOf, StageCut;
      if rest != [] {
        var init, last := rest[..|rest| - 1], rest[|rest| - 1];
        assert rest == init + [last];
        CutThenAll(d, e, id, init, ss);
        var xs, x, y := PackagesOf(id, ss[id]), StagedAll(d, init, ss), StagedAll(e, init, ss);
        if last == id {
          StageAfterCut(x, y, xs);
        } else if id !in init && Eligible(last, ss[last]) {
          CutCommutes(x, y, xs, PackagesOf(last, ss[last]));
        }
      }
    }

    lemma NothingLeft(d: Disk)
      ensures Steady(d) ==> BootsLeave(d, d)
    {
      hide Eligible, StagedAll;
      assert forall rest: seq<int> :: [] + rest == rest;
      assert Steady(d) ==> LeaveInOrder(d, d, []);
    }

    /** One session tried, as a boot that is cut after it. */
    lemma {:induction false} TurnLeaves(d: Disk, e: Disk, id: int)
      requires Steady(d) && id in Scope(d.sessions) && TurnOf(d, e, id)
      ensures BootsLeave(d, e)
    {
      hide Eligible, PackagesOf, StageCut, Staged, IsApexFile, StagedAll, LeadsTo;
      var ss := d.sessions;
      if e.sessions == ss {
        TurnCut(d, e, id);
        assert LeaveInOrder(d, e, []);
      } else {
        TurnMade(d, e, id);
        assert Scope(ss) - Scope(e.sessions) == {id};
        assert LeaveInOrder(d, e, [id]);
      }
    }

    lemma TurnCut(d: Disk, e: Disk, id: int)
      requires Steady(d) && id in Scope(d.sessions) && TurnOf(d, e, id) && e.sessions == d.sessions
      ensures AllReadable(Files(e.active)) && LeadsTo(d, e, [])
    {
      hide Eligible, PackagesOf, StageCut, Staged, IsApexFile, StagedAll;
      var ss := d.sessions;
      if Eligible(id, ss[id]) {
        CutReadable(d, e, PackagesOf(id, ss[id]));
        CutIgnoresSessions(d, e, PackagesOf(id, ss[id]));
      }
      forall rest | IsListing(rest, Scope(ss))
        ensures StagedAll(Data(e), rest, ss) == StagedAll(Data(d), [] + rest, ss)
      {
        assert [] + rest == rest;
        if Eligible(id, ss[id]) {
          CutThenAll(Data(d), Data(e), id, rest, ss);
        }
      }
    }

    lemma TurnMade(d: Disk, e: Disk, id: int)
      requires Steady(d) && id in Scope(d.sessions) && TurnOf(d, e, id) && e.sessions != d.sessions
      ensures AllReadable(Files(e.active)) && Scope(e.sessions) <= Scope(d.sessions) && LeadsTo(d, e, [id])
    {
      hide Eligible, PackagesOf, StageCut, Staged, IsApexFile;
      var ss := d.sessions;
      if Eligible(id, ss[id]) {
        StagedReadable(d, PackagesOf(id, ss[id]));
        StagedIgnoresSessions(d, map[], PackagesOf(id, ss[id]));
      }
      assert Data(e) == StagedAll(Data(d), [id], ss);
      hide StagedAll;
      forall rest | IsListing(rest, Scope(e.sessions))
        ensures StagedAll(Data(e), rest, ss) == StagedAll(Data(d), [id] + rest, ss)
      {
        StagedAllFrom(Data(d), [id], rest, ss);
      }
    }

    lemma StaysSteady(d: Disk, e: Disk)
      requires Steady(d) && BootsLeave(d, e)
      ensures Steady(e)
    { }

    /** Boots after boots are boots. */
    lemma {:induction false} BootsLeaveChain(d: Disk, e: Disk, f: Disk)
      requires BootsLeave(d, e) && BootsLeave(e, f)
      ensures BootsLeave(d, f)
    {
      hide Eligible, LeadsTo, SessionsTried, AllReadable;
      var done :| LeaveInOrder(d, e, done);
      var more :| LeaveInOrder(e, f, more);
      TriedChain(d.sessions, e.sessions, f.sessions, done, more);
      LeadsChain(d, e, f, done, more);
      assert LeaveInOrder(d, f, done + more);
    }

    lemma {:induction false} LeadsChain(d: Disk, e: Disk, f: Disk, done: seq<int>, more: seq<int>)
      requires LeaveInOrder(d, e, done) && LeaveInOrder(e, f, more)
      ensures LeadsTo(d, f, done + more)
    {
      hide Eligible, StagedAll, AllReadable, LeadsTo, SessionsTried;
      assert Scope(d.sessions) <= d.sessions.Keys && Scope(e.sessions) <= e.sessions.Keys;
      hide Scope;
      forall id | id in Scope(e.sessions) ensures id in e.sessions && Get(e.sessions, id) == Get(d.sessions, id) {
        ScopeUntried(d, e, done, id);
      }
      LeadsInScope(d, e, f, done, more);
    }

    lemma ScopeUntried(d: Disk, e: Disk, done: seq<int>, id: int)
      requires LeaveInOrder(d, e, done) && id in Scope(e.sessions)
      ensures id in e.sessions && Get(e.sessions, id) == Get(d.sessions, id)
    {
      hide Eligible, LeadsTo, AllReadable;
      assert id !in done;
    }

    lemma {:induction false} LeadsInScope(d: Disk, e: Disk, f: Disk, done: seq<int>, more: seq<int>)
      requires Elements(done) <= d.sessions.Keys && Scope(e.sessions) <= d.sessions.Keys && LeadsTo(d, e, done)
      requires Elements(more) <= e.sessions.Keys && Scope(f.sessions) <= e.sessions.Keys && LeadsTo(e, f, more)
      requires Scope(f.sessions) <= Scope(e.sessions)
      requires IsListing(more, Scope(e.sessions) - Scope(f.sessions))
      requires forall id :: id in Scope(e.sessions) ==> id in e.sessions && Get(e.sessions, id) == Get(d.sessions, id)
      ensures Elements(done + more) <= d.sessions.Keys && Scope(f.sessions) <= d.sessions.Keys
      ensures LeadsTo(d, f, done + more)
    {
      hide Eligible, StagedAll, Scope;
      forall rest | IsListing(rest, Scope(f.sessions))
        ensures StagedAll(Data(f), rest, d.sessions) == StagedAll(Data(d), done + more + rest, d.sessions)
      {
        assert done + more + rest == done + (more + rest);
        assert IsListing(more + rest, Scope(e.sessions));
        StagedAllSame(Data(f), rest, d.sessions, e.sessions);
        StagedAllSame(Data(e), more + rest, d.sessions, e.sessions);
      }
    }

    lemma TriedChain(a: Sessions, b: Sessions, c: Sessions, done: seq<int>, more: seq<int>)
      requires Scope(b) <= Scope(a) && IsListing(done, Scope(a) - Scope(b)) && SessionsTried(a, b, done)
      requires Scope(c) <= Scope(b) && IsListing(more, Scope(b) - Scope(c)) && SessionsTried(b, c, more)
      ensures IsListing(done + more, Scope(a) - Scope(c)) && SessionsTried(a, c, done + more)
    {
      hide Eligible, ActivationOutcome;
      forall id | id in more ensures Get(b, id) == Get(a, id) {
        assert id !in done;
      }
      forall id | id in done ensures Get(c, id) == Get(b, id) {
        assert id !in more;
      }
    }

    // What a boot costs

    /** The names under which the APEXes of a session's directories are staged. */
    ghost function FileNamesOf(id: int, s: Session): set<string> {
      set dir, n |
        dir in DirsOf(id, s) && dir in sessionFiles && n in sessionFiles[dir] && sessionFiles[dir][n].Package? ::
        FileName(sessionFiles[dir][n].apex)
    }

    ghost function StagedNames(ss: Sessions): set<string> {
      set id, f | id in Scope(ss) && f in FileNamesOf(id, ss[id]) :: f
    }

    /** Every file name that the active directory can come to hold before all is staged or reverted. */
    ghost function Universe(d: Disk): set<string> {
      Files(d.active).Keys + Files(d.backup).Keys + StagedNames(d.sessions)
    }

    /** The most writes of a scan of the staged sessions, of a revert, and of a whole boot. */
    ghost function ScanCost(d: Disk): nat {
      TurnsCost(|Scope(d.sessions)|, 2 + |Universe(d)|, DirCount(d.sessions, Scope(d.sessions)))
    }

    ghost function RevertBound(d: Disk): nat {
      2 * |d.sessions| + |Universe(d)| + 1
    }

    ghost function BootCost(d: Disk): nat {
      ScanCost(d) + 3 * RevertBound(d)
    }

    /** What boots make of a disk, cut or not: nothing that later boots do costs more. */
    ghost predicate Within(d: Disk, e: Disk) {
      && Files(e.active).Keys <= Universe(d) && Files(e.backup).Keys <= Universe(d)
      && e.sessions.Keys == d.sessions.Keys && Scope(e.sessions) <= Scope(d.sessions)
      && forall id :: id in Scope(e.sessions) ==> DirsOf(id, e.sessions[id]) == DirsOf(id, d.sessions[id])
    }

    lemma WithinItself(d: Disk)
      ensures Within(d, d)
    { }

    lemma {:induction false} WithinShrinks(d: Disk, e: Disk)
      requires Within(d, e)
      ensures Universe(e) <= Universe(d)
    {
      forall id | id in Scope(e.sessions) ensures FileNamesOf(id, e.sessions[id]) == FileNamesOf(id, d.sessions[id]) {
        assert DirsOf(id, e.sessions[id]) == DirsOf(id, d.sessions[id]);
      }
      hide FileNamesOf, Scope;
    }

    lemma WithinChain(d: Disk, e: Disk, f: Disk)
      requires Within(d, e) && Within(e, f)
      ensures Within(d, f)
    {
      WithinShrinks(d, e);
      hide Universe, Scope;
    }

    lemma {:induction false} DirsShrink(d: Disk, e: Disk)
      requires Within(d, e)
      ensures DirCount(e.sessions, Scope(e.sessions)) <= DirCount(d.sessions, Scope(d.sessions))
      ensures |Scope(e.sessions)| <= |Scope(d.sessions)|
    {
      hide Universe, Scope, DirCount;
      forall id | id in Scope(e.sessions) ensures DirsIn(e.sessions, id) <= DirsIn(d.sessions, id) {
        ScopeIsInPlay(e.sessions, id);
      }
      FewerDirs(d.sessions, e.sessions, Scope(e.sessions), Scope(d.sessions));
      NotMore(Scope(e.sessions), Scope(d.sessions));
    }

    lemma {:induction false} ScanShrinks(d: Disk, e: Disk)
      requires Within(d, e)
      ensures ScanCost(e) <= ScanCost(d)
    {
      hide Universe, Scope, TurnsCost, DirCount, Within;
      DirsShrink(d, e);
      WithinShrinks(d, e);
      NotMore(Universe(e), Universe(d));
      FewerTurnsCostLess(|Scope(e.sessions)|, |Scope(d.sessions)|, 2 + |Universe(e)|, 2 + |Universe(d)|,
                         DirCount(e.sessions, Scope(e.sessions)), DirCount(d.sessions, Scope(d.sessions)));
    }

    lemma ScopeIsInPlay(ss: Sessions, id: int)
      requires id in Scope(ss)
      ensures id in ss
    { }

    lemma {:induction false} RevertShrinks(d: Disk, e: Disk)
      requires Within(d, e)
      ensures RevertCost(e) <= RevertBound(e) <= RevertBound(d)
    {
      WithinShrinks(d, e);
      KeysCount(d.sessions);
      KeysCount(e.sessions);
      KeysCount(Files(e.active));
      ActiveIsInUniverse(e);
      hide Universe, Scope, Files, Revertible;
      NotMore(Universe(e), Universe(d));
      RevertibleAreFew(e.sessions);
    }

    lemma ActiveIsInUniverse(d: Disk)
      ensures |Files(d.active).Keys| <= |Universe(d)|
    {
      NotMore(Files(d.active).Keys, Universe(d));
    }

    lemma CostShrinks(d: Disk, e: Disk)
      requires Within(d, e)
      ensures ScanCost(e) <= ScanCost(d) && RevertCost(e) <= RevertBound(d) && BootCost(e) <= BootCost(d)
    {
      hide ScanCost, RevertBound, Within, RevertCost;
      ScanShrinks(d, e);
      RevertShrinks(d, e);
    }

    /** The packages of a session come from its directories. */
    lemma {:induction false} SessionDests(id: int, s: Session)
      requires Eligible(id, s)
      ensures Dests(PackagesOf(id, s)) <= FileNamesOf(id, s) && |PackagesOf(id, s)| == |DirsOf(id, s)|
    {
      hide FileName, IsApexFile;
      var dirs, xs := DirsOf(id, s), PackagesOf(id, s);
      forall x | x in xs ensures FileName(x) in FileNamesOf(id, s) {
        var i :| 0 <= i < |xs| && xs[i] == x;
        var dir := dirs[i];
        assert OnlyApex(sessionFiles[dir]) == Package(x);
        var n :| n in ApexFiles(sessionFiles[dir]) && sessionFiles[dir][n] == Package(x);
        assert n in sessionFiles[dir] && sessionFiles[dir][n].apex == x;
      }
    }

    /** Staging one session costs no more than its share. */
    lemma {:induction false} SessionCostBound(d: Disk, e: Disk, id: int)
      requires Within(d, e) && id in Scope(d.sessions)
      ensures SessionCost(Files(e.active), id, d.sessions[id]) + 1 <=
        2 + |Universe(d)| + 3 * |DirsOf(id, d.sessions[id])|
    {
      hide Eligible, PackagesOf, Dests;
      var dir, s := Files(e.active), d.sessions[id];
      if Eligible(id, s) {
        var xs := PackagesOf(id, s);
        SessionDests(id, s);
        LinkedAt(dir, xs);
        assert FileNamesOf(id, s) <= StagedNames(d.sessions);
        NotMore(Linked(dir, xs).Keys, Universe(d));
        assert |Linked(dir, xs)| == |Linked(dir, xs).Keys|;
      }
    }

    lemma TurnWithin(d: Disk, e: Disk, id: int)
      requires id in Scope(d.sessions)
      requires Files(e.active).Keys <= Files(d.active).Keys + FileNamesOf(id, d.sessions[id]) && e.backup == d.backup
      requires e.sessions == d.sessions ||
        (id in e.sessions && ActivationOutcome(d.sessions[id], e.sessions[id]) &&
         e.sessions == d.sessions[id := e.sessions[id]])
      ensures Within(d, e)
    {
      hide FileNamesOf;
      assert FileNamesOf(id, d.sessions[id]) <= StagedNames(d.sessions);
      assert e.sessions.Keys == d.sessions.Keys;
    }

    /** Reverts, cut or not, stay within. */
    lemma {:induction false} RevertWithin(d: Disk, e: Disk)
      requires RevertLeaves(d, e, fsCheckpoints)
      ensures Within(d, e)
    {
      RevertMakesNoFiles(d, e, fsCheckpoints);
      hide RevertLeaves;
      MarkedWithin(d.sessions, e.sessions);
    }

    lemma MarkedWithin(before: Sessions, after: Sessions)
      requires before.Keys == after.Keys
      requires forall id :: id in before ==>
        after[id] == before[id] || after[id].state in {REVERT_IN_PROGRESS, REVERTED, REVERT_FAILED}
      ensures forall id :: id in Scope(after) ==> id in Scope(before) && after[id] == before[id]
    { }

    // What the turns of a scan have cost so far

    ghost predicate ScanPaid(start: Disk, d: Disk, ids: seq<int>, i: nat, before: nat, after: nat)
      requires i <= |ids|
    {
      && Within(start, d)
      && before <= after + TurnsCost(i, 2 + |Universe(start)|, DirCount(start.sessions, Elements(ids[..i])))
    }

    lemma NothingPaid(d: Disk, ids: seq<int>, power: nat)
      ensures ScanPaid(d, d, ids, 0, power, power)
    {
      hide Within, Universe, DirCount;
      WithinItself(d);
    }

    lemma {:induction false} OneMorePaid(start: Disk, d: Disk, e: Disk, ids: seq<int>, i: nat, before: nat, after: nat,
                                         left: nat)
      requires IsListing(ids, Scope(start.sessions)) && i < |ids| && ScanPaid(start, d, ids, i, before, after)
      requires Get(d.sessions, ids[i]) == Get(start.sessions, ids[i]) && Within(d, e)
      requires after <= left + SessionCost(Files(d.active), ids[i], start.sessions[ids[i]]) + 1
      ensures ScanPaid(start, e, ids, i + 1, before, left)
    {
      hide Within, Universe, DirCount, SessionCost, TurnsCost, Scope;
      WithinChain(start, d, e);
      SessionCostBound(start, d, ids[i]);
      ScopeIsInPlay(start.sessions, ids[i]);
      DirCountWithout(start.sessions, Elements(ids[..i + 1]), ids[i]);
      assert Elements(ids[..i + 1]) - {ids[i]} == Elements(ids[..i]);
      OneMoreTurn(i, 2 + |Universe(start)|, DirCount(start.sessions, Elements(ids[..i])),
                  |DirsOf(ids[i], start.sessions[ids[i]])|);
    }

    lemma AllPaid(start: Disk, d: Disk, ids: seq<int>, before: nat, after: nat)
      requires IsListing(ids, Scope(start.sessions)) && ScanPaid(start, d, ids, |ids|, before, after)
      ensures Within(start, d) && before <= after + ScanCost(start)
    {
      hide Within, Universe, DirCount, TurnsCost, Scope;
      ListingSize(ids, Scope(start.sessions));
      assert Elements(ids[..|ids|]) == Scope(start.sessions);
    }

    // What the parts of a boot have cost so far

    ghost predicate Paid(start: Disk, d: Disk, before: nat, after: nat, bound: nat) {
      Within(start, d) && before <= after + bound
    }

    lemma PaidScan(start: Disk, d: Disk, e: Disk, before: nat, after: nat, left: nat, bound: nat)
      requires Paid(start, d, before, after, bound) && Within(d, e) && after <= left + ScanCost(d)
      ensures Paid(start, e, before, left, bound + ScanCost(start))
    {
      hide Within, ScanCost, RevertBound;
      WithinChain(start, d, e);
      CostShrinks(start, d);
    }

    lemma PaidRevert(start: Disk, d: Disk, e: Disk, before: nat, after: nat, left: nat, bound: nat)
      requires Paid(start, d, before, after, bound) && (e == d || RevertLeaves(d, e, fsCheckpoints))
      requires after <= left + RevertCost(d)
      ensures Paid(start, e, before, left, bound + RevertBound(start))
    {
      hide Within, ScanCost, RevertBound, RevertLeaves, RevertCost;
      WithinItself(d);
      if e != d {
        RevertWithin(d, e);
      }
      WithinChain(start, d, e);
      CostShrinks(start, d);
    }

    lemma NothingToScan(d: Disk)
      ensures Scope(d.sessions) == {} ==> ScanCost(d) == 0
    {
      hide Scope, Universe;
    }

    lemma NoneLeftToTry(d: Disk, e: Disk, order: seq<int>)
      requires Steady(d) && BootsLeave(d, e) && IsListing(order, Scope(d.sessions)) && Tried(d, e, order)
      ensures Scope(e.sessions) == {}
    {
      hide Eligible, LeadsTo, AllReadable;
      forall id ensures id !in Scope(e.sessions) {
        assert id in Scope(d.sessions) ==> id in order;
      }
    }

    /** ScanStagedSessionsDirAndStage: activates the staged sessions; `order` is the order in which
        the session directory listed them. */
    method ScanStagedSessionsDirAndStage() returns (ghost order: seq<int>)
      requires Valid()
      modifies `disk, `power, `history
      ensures Ran() && IsListing(order, Scope(old(disk).sessions))
      ensures disk.backup == old(disk).backup && (old(disk).active.Some? ==> disk.active.Some?)
      ensures Scanned(old(disk).sessions, disk.sessions, Scope(old(disk).sessions))
      ensures Scope(old(disk).sessions) == {} ==> disk == old(disk)
      ensures power > 0 ==> Tried(old(disk), disk, order)
      ensures Steady(old(disk)) ==> BootsLeave(old(disk), disk)
      ensures Steady(old(disk)) && power > 0 ==> Scope(disk.sessions) == {}
      ensures Within(old(disk), disk) && old(power) <= power + ScanCost(old(disk))
    {
      hide Tried, Eligible, Scanned, ActivationOutcome, BootsLeave, Steady, TurnOf;
      hide ScanPaid, Within, ScanCost, SessionCost, FileNamesOf;
      ghost var start, ss := disk, disk.sessions;
      var ids := SessionsToActivate();
      order := ids;
      NothingTried(disk);
      NothingScanned(ss, Scope(ss));
      NothingLeft(start);
      NothingPaid(start, ids, power);
      for i := 0 to |ids|
        invariant Ran() && ScanPaid(start, disk, ids, i, old(power), power)
        invariant disk.backup == start.backup && (start.active.Some? ==> disk.active.Some?)
        invariant Scanned(ss, disk.sessions, Scope(ss))
        invariant i == 0 ==> disk == start
        invariant forall j :: i <= j < |ids| ==> Get(disk.sessions, ids[j]) == Get(ss, ids[j])
        invariant power > 0 ==> Tried(start, disk, ids[..i])
        invariant Steady(start) ==> BootsLeave(start, disk)
      {
        assert ids[i] in Scope(ss);
        assert ids[..i + 1] == ids[..i] + [ids[i]];
        ghost var before, left := disk, power;
        ActivateSession(ids[i]);
        TurnWithin(before, disk, ids[i]);
        OneMorePaid(start, before, disk, ids, i, old(power), left, power);
        if Steady(start) {
          StaysSteady(start, before);
          TurnLeaves(before, disk, ids[i]);
          BootsLeaveChain(start, before, disk);
        }
        ScannedOneMore(ss, before.sessions, disk.sessions, Scope(ss), ids[i]);
        if power > 0 {
          TriedOneMore(start, before, disk, ids[..i], ids[i]);
        }
      }
      assert ids[..|ids|] == ids;
      assert ids != [] ==> ids[0] in Scope(ss);
      AllPaid(start, disk, ids, old(power), power);
      if Steady(start) && power > 0 {
        NoneLeftToTry(start, disk, ids);
      }
    }

    /** The sessions in STAGED, then, with filesystem checkpoints, those in ACTIVATED. */
    method SessionsToActivate() returns (ids: seq<int>)
      ensures IsListing(ids, Scope(disk.sessions))
    {
      var staged := List(SessionsInState(disk.sessions, STAGED));
      var activated := [];
      if fsCheckpoints {
        activated := List(SessionsInState(disk.sessions, ACTIVATED));
      }
      ids := staged + activated;
      assert forall id :: id in Scope(disk.sessions) ==> id in staged || id in activated;
    }

    lemma NothingTried(d: Disk)
      ensures Tried(d, d, [])
    { }

    /** ResumeRevertIfNeeded. */
    method ResumeRevertIfNeeded()
      requires Valid()
      modifies `disk, `power, `history
      ensures Ran()
      ensures AtRest(old(disk).sessions) ==> disk == old(disk)
      ensures !AtRest(old(disk).sessions) ==> RevertLeaves(old(disk), disk, fsCheckpoints)
      ensures power > 0 && !AtRest(old(disk).sessions) ==> disk == Reverted(old(disk), fsCheckpoints, "", "")
      ensures old(power) <= power + if AtRest(old(disk).sessions) then 0 else RevertCost(old(disk))
    {
      hide RevertLeaves, Reverted;
      NothingRevertible(disk.sessions);
      var pending := List(SessionsInState(disk.sessions, REVERT_IN_PROGRESS));
      AtRestIsNonePending(disk.sessions);
      if pending != [] {
        assert pending[0] in SessionsInState(disk.sessions, REVERT_IN_PROGRESS);
        var _ := RevertActiveSessions("", "");
      }
    }

    /** The disk on which OnStart begins to activate packages: reverted, if vold asks for it; else with the
        staged sessions tried and, if one was being reverted, reverted. */
    ghost predicate ReadyToActivate(start: Disk, ready: Disk, order: seq<int>, rollback: bool)
      reads `inCheckpoint
    {
      if rollback then
        ready == if Revertible(start.sessions) == {} then start else Reverted(start, fsCheckpoints, "", "")
      else
        && (forall id :: id in order <==> id in Scope(start.sessions))
        && if AtRest(start.sessions) then ready.backup == start.backup && Tried(start, ready, order)
           else AllFinal(ready.sessions)
    }

    /** The revert of a failed activation finds something to revert and to restore. */
    predicate CanRevert(d: Disk) {
      Revertible(d.sessions) != {} && (fsCheckpoints || (d.backup.Some? && d.active.Some?))
    }

    /** The disk after activation: a failure reverts what is still in play. */
    ghost function AfterActivation(ready: Disk, fails: bool): Disk {
      if fails && Revertible(ready.sessions) != {} then
        Reverted(ready, fsCheckpoints, "", "Failed to activate packages")
      else ready
    }

    /** OnStart, as far as sessions and the active directory go. `activationFails` says that some
        selected APEX could not be activated; `order` is the order in which sessions were tried, and
        `ready` the disk when activation began. */
    method OnStart(needsRollback: bool, activationFails: bool)
      returns (rebooting: bool, ghost order: seq<int>, ghost ready: Disk)
      requires Valid()
      modifies `disk, `power, `history
      ensures Ran()
      ensures !fsCheckpoints && Reverting(old(disk)) ==>
        && Reverting(disk) && Target(disk) == Target(old(disk))
        && (power > 0 ==> !rebooting && RevertOver(disk, Target(old(disk))))
        && (old(disk).backup.None? ==> disk.backup.None? && FailingOnly(old(disk).sessions, disk.sessions))
      ensures power > 0 ==> ReadyToActivate(old(disk), ready, order, fsCheckpoints && needsRollback)
      ensures power > 0 ==> (rebooting <==> activationFails && CanRevert(ready))
      ensures power > 0 ==> disk == AfterActivation(ready, activationFails)
      ensures power > 0 && rebooting ==> AllFinal(disk.sessions)
      ensures power > 0 && rebooting && !fsCheckpoints && AtRest(old(disk).sessions) ==>
        disk.active == old(disk).backup && disk.backup.None?
      ensures power > 0 ==> AtRest(disk.sessions)
      ensures AtRest(old(disk).sessions) && !activationFails && !(fsCheckpoints && needsRollback) ==>
        && disk.backup == old(disk).backup && (old(disk).active.Some? ==> disk.active.Some?)
        && AtRest(disk.sessions) && (Scope(old(disk).sessions) == {} ==> disk == old(disk))
        && (Steady(old(disk)) ==> BootsLeave(old(disk), disk) && (power > 0 ==> Scope(disk.sessions) == {}))
      ensures Within(old(disk), disk) && old(power) <= power + BootCost(old(disk))
      ensures Idle(old(disk)) && !activationFails && !(fsCheckpoints && needsRollback) ==> power == old(power)
    {
      hide Reverted, Reverting, FailingOnly, ReadyToActivate, RevertLeaves, BootsLeave, Steady, Within, ScanCost,
          RevertBound, RevertCost;
      order := PrepareBoot(needsRollback);
      ready := disk;
      ghost var left := power;
      NothingRevertible(ready.sessions);
      RevertedAtRest(ready, fsCheckpoints, "", "Failed to activate packages");
      RevertedSwaps(ready, "", "Failed to activate packages");
      rebooting := RevertIfFailed(activationFails);
      PaidRevert(old(disk), ready, disk, old(power), left, power, ScanCost(old(disk)) + 2 * RevertBound(old(disk)));
    }

    /** The end of OnStart: if ActivateApexPackages has failed, what is still in play is reverted. */
    method RevertIfFailed(failed: bool) returns (rebooting: bool)
      requires Valid()
      modifies `disk, `power, `history
      ensures Ran()
      ensures !failed ==> power == old(power)
      ensures !failed || Revertible(old(disk).sessions) == {} ==> !rebooting && disk == old(disk)
      ensures disk == old(disk) || RevertLeaves(old(disk), disk, fsCheckpoints)
      ensures power > 0 ==> (rebooting <==> failed && CanRevert(old(disk)))
      ensures power > 0 ==> disk == AfterActivation(old(disk), failed)
      ensures old(power) <= power + RevertCost(old(disk))
    {
      hide Reverted, RevertLeaves, RevertCost;
      rebooting := false;
      if failed {
        rebooting := RevertActiveSessions("", "Failed to activate packages");
      }
    }


    /** A disk on which a boot finds nothing to do. */
    predicate Idle(d: Disk) {
      AtRest(d.sessions) && Scope(d.sessions) == {}
    }

    /** OnStart up to the point where it begins to activate packages. */
    method PrepareBoot(needsRollback: bool) returns (ghost order: seq<int>)
      requires Valid()
      modifies `disk, `power, `history
      ensures Ran()
      ensures !fsCheckpoints && Reverting(old(disk)) ==>
        && Reverting(disk) && Target(disk) == Target(old(disk))
        && (power > 0 ==> RevertOver(disk, Target(old(disk))))
        && (old(disk).backup.None? ==> disk.backup.None? && FailingOnly(old(disk).sessions, disk.sessions))
      ensures power > 0 ==> ReadyToActivate(old(disk), disk, order, fsCheckpoints && needsRollback)
      ensures power > 0 ==> AtRest(disk.sessions)
      ensures AtRest(old(disk).sessions) && !(fsCheckpoints && needsRollback) ==>
        && disk.backup == old(disk).backup && (old(disk).active.Some? ==> disk.active.Some?)
        && AtRest(disk.sessions) && (Scope(old(disk).sessions) == {} ==> disk == old(disk))
        && (Steady(old(disk)) ==> BootsLeave(old(disk), disk) && (power > 0 ==> Scope(disk.sessions) == {}))
      ensures Within(old(disk), disk) && old(power) <= power + ScanCost(old(disk)) + 2 * RevertBound(old(disk))
      ensures Idle(old(disk)) && !(fsCheckpoints && needsRollback) ==> power == old(power)
    {
      hide RevertLeaves, Reverted, Tried, Scanned, Reverting, RevertOver, FailingOnly, BootsLeave, Steady;
      hide Within, ScanCost, RevertBound, RevertCost;
      ghost var d0, left := disk, power;
      WithinItself(d0);
      NothingToScan(d0);
      if fsCheckpoints && needsRollback {
        RollbackLeavesNothing(disk);
        var _ := RevertActiveSessions("", "");
        PaidRevert(d0, d0, disk, left, left, power, 0);
      }
      ghost var dr, mid := disk, power;
      order := ScanStagedSessionsDirAndStage();
      PaidScan(d0, dr, disk, left, mid, power, RevertBound(d0));
      ghost var d1 := disk;
      mid := power;
      ResumeRevertIfNeeded();
      PaidRevert(d0, d1, disk, left, mid, power, RevertBound(d0) + ScanCost(d0));
      ghost var d2, live := disk, power > 0;
      if !(fsCheckpoints && needsRollback) {
        ScanLeavesRevert(d0, d1, Scope(d0.sessions));
        if !AtRest(d0.sessions) {
          RevertStaysPending(d0, d1, Scope(d0.sessions));
        }
      }
      if !fsCheckpoints && Reverting(d0) {
        ResumeGoesOn(d1, d2, live);
        if d0.backup.None? {
          NothingStagedThen(d0);
          ResumeOnlyFails(d0, d2);
        }
      }
      if !AtRest(d1.sessions) {
        RevertedAtRest(d1, fsCheckpoints, "", "");
      }
    }

    /** When the backup is gone and a revert is pending, no session is left to try. */
    lemma NothingStagedThen(d: Disk)
      requires Reverting(d) && d.backup.None?
      ensures Scope(d.sessions) == {}
    {
      assert forall id :: id !in Scope(d.sessions);
    }

    /** After a rollback no session is left to try or to resume. */
    lemma RollbackLeavesNothing(d: Disk)
      ensures var e := if Revertible(d.sessions) == {} then d else Reverted(d, fsCheckpoints, "", "");
        AtRest(e.sessions) && Scope(e.sessions) == {}
    {
      NothingRevertible(d.sessions);
      RevertedAtRest(d, fsCheckpoints, "", "");
      var e := if Revertible(d.sessions) == {} then d else Reverted(d, fsCheckpoints, "", "");
      NothingRevertible(e.sessions);
      hide Reverted;
      assert forall id :: id !in Scope(e.sessions);
    }

    /** Power comes back; vold says whether this boot runs in a filesystem checkpoint. */
    method PowerOn(budget: nat, needsCheckpoint: bool)
      requires Valid()
      modifies `power, `inCheckpoint
      ensures Valid() && disk == old(disk) && history == old(history)
      ensures power == budget && inCheckpoint == (fsCheckpoints && needsCheckpoint)
    {
      power := budget;
      inCheckpoint := fsCheckpoints && needsCheckpoint;
    }

    /** The revert that was pending on `start` is still pending. */
    ghost predicate StillPending(start: Disk, d: Disk) {
      && Reverting(start) && Reverting(d) && Target(d) == Target(start) && Within(start, d)
      && (start.backup.None? ==> d.backup.None? && FailingOnly(start.sessions, d.sessions))
    }

    lemma PendingAtFirst(d: Disk)
      requires Reverting(d)
      ensures StillPending(d, d)
    {
      hide Reverting, Within, FailingOnly;
      OnlyFailingSoFar(d.sessions);
      WithinItself(d);
    }

    lemma PendingAfterBoot(start: Disk, d: Disk, e: Disk)
      requires StillPending(start, d) && Reverting(e) && Target(e) == Target(d) && Within(d, e)
      requires d.backup.None? ==> e.backup.None? && FailingOnly(d.sessions, e.sessions)
      ensures StillPending(start, e) && BootCost(d) <= BootCost(start)
    {
      hide Within, FailingOnly, BootCost, AtRest;
      FailingChain(start.sessions, d.sessions, e.sessions);
      CostShrinks(start, d);
      WithinChain(start, d, e);
    }

    lemma PendingEnds(start: Disk, d: Disk)
      requires StillPending(start, d)
      ensures Reverting(d) && Target(d) == Target(start)
      ensures start.backup.None? && AllFinal(d.sessions) ==>
        forall id :: id in start.sessions && start.sessions[id].state == REVERT_IN_PROGRESS ==>
          id in d.sessions && d.sessions[id].state == REVERT_FAILED
    {
      hide Within, FailingOnly;
      if AllFinal(d.sessions) {
        FailingEnds(start.sessions, d.sessions);
      }
    }

    /** A revert that power losses interrupt: boots, each with its budget, until one gets through. One does if
        its budget is more than a boot costs. */
    method BootUntilReverted(boots: seq<Attempt>) returns (finished: bool)
      requires Valid() && !fsCheckpoints && Reverting(disk)
      modifies `disk, `power, `history, `inCheckpoint
      ensures Valid() && old(history) <= history
      ensures Reverting(disk) && Target(disk) == Target(old(disk))
      ensures finished ==> RevertOver(disk, Target(old(disk)))
      ensures finished && old(disk).backup.None? ==>
        forall id :: id in old(disk).sessions && old(disk).sessions[id].state == REVERT_IN_PROGRESS ==>
          id in disk.sessions && disk.sessions[id].state == REVERT_FAILED
      ensures SomeSuffices(boots, BootCost(old(disk))) ==> finished
    {
      hide FailingOnly, NoneSufficed, BootCost, Within, AtRest, SomeSuffices, CanRevert, ReadyToActivate, AllFinal;
      hide StillPending, BootsLeave, Steady, Idle, Scope;
      finished := false;
      PendingAtFirst(disk);
      NoneTried(boots, BootCost(disk));
      for i := 0 to |boots|
        invariant Valid() && old(history) <= history
        invariant StillPending(old(disk), disk) && NoneSufficed(boots, i, BootCost(old(disk)))
      {
        PowerOn(boots[i].budget, false);
        ghost var before := disk;
        PendingEnds(old(disk), before);
        var rebooting, _, _ := OnStart(false, boots[i].activationFails);
        PendingAfterBoot(old(disk), before, disk);
        if power > 0 {
          PendingEnds(old(disk), disk);
          return true;
        }
        OneMoreTried(boots, i, BootCost(old(disk)));
      }
      PendingEnds(old(disk), disk);
      NoneWasEnough(boots, BootCost(old(disk)));
    }

    /** A revert from its first call on: the call may be cut anywhere, and so may the boots after it. Either
        the call was cut before it changed a thing, or the first boot that gets through leaves exactly
        what the backup held at the call. The call gets through if the power is more than it costs, and else
        one of the boots if its budget is more than a boot costs. */
    method RevertThenBoots(process: string, message: string, boots: seq<Attempt>)
      returns (begun: bool, finished: bool)
      requires Valid() && !fsCheckpoints && disk.active.Some? && disk.backup.Some? && Revertible(disk.sessions) != {}
      modifies `disk, `power, `history, `inCheckpoint
      ensures Valid() && old(history) <= history
      ensures !begun ==> disk == old(disk) && !finished
      ensures begun ==> Reverting(disk) && Target(disk) == old(disk).backup.value
      ensures finished ==> RevertOver(disk, old(disk).backup.value)
      ensures old(power) > RevertCost(old(disk)) ==> finished
      ensures begun && SomeSuffices(boots, BootCost(old(disk))) ==> finished
    {
      hide Reverting, RevertLeaves, MarkedAll, BootCost, Within, RevertCost;
      var before := disk;
      var _ := RevertActiveSessions(process, message);
      CutRevertHasBegun(before, disk);
      RevertedAtRest(before, false, process, message);
      RevertWithin(before, disk);
      CostShrinks(before, disk);
      begun, finished := disk != before, power > 0;
      if begun && !finished {
        finished := BootUntilReverted(boots);
      } else if finished {
        OverIsReverting(disk, before.backup.value);
      }
    }

    /** Staging every session that can be staged, in some order, as one boot that is not cut does. */
    ghost predicate AsOneBoot(d: Disk, e: Disk)
      reads `inCheckpoint
    {
      forall order | IsListing(order, Scope(d.sessions)) :: SameData(e, StagedAll(d, order, d.sessions))
    }

    /** Boots that power losses cut anywhere, until one gets through, as one does if its budget is more than a
        boot costs. What is staged is what one uncut boot stages that tries the sessions in some order: that
        in which they were committed. For different packages it is the same in every order. Each session is
        ACTIVATED if and only if it could be staged. */
    method BootUntilStaged(boots: seq<Attempt>) returns (finished: bool, ghost order: seq<int>)
      requires Valid() && AtRest(disk.sessions) && Steady(disk) && forall b :: b in boots ==> !b.activationFails
      modifies `disk, `power, `history, `inCheckpoint
      ensures Valid() && old(history) <= history
      ensures finished ==>
        && IsListing(order, Scope(old(disk).sessions))
        && SameData(disk, StagedAll(old(disk), order, old(disk).sessions))
      ensures finished && DifferentPackages(PlanOf(old(disk).sessions)) ==> AsOneBoot(old(disk), disk)
      ensures finished ==> SessionsTried(old(disk).sessions, disk.sessions, order)
      ensures SomeSuffices(boots, BootCost(old(disk))) ==> finished
    {
      assert !fsCheckpoints;
      hide BootsLeave, Steady, ReadyToActivate, Eligible, StagedAll, ActivationOutcome, NoneSufficed, BootCost, Within,
          SomeSuffices, AllReadable;
      finished := false;
      order := [];
      ghost var start := disk;
      NothingLeft(start);
      WithinItself(start);
      NoneTried(boots, BootCost(start));
      for i := 0 to |boots|
        invariant Valid() && old(history) <= history
        invariant AtRest(disk.sessions) && BootsLeave(start, disk)
        invariant Within(start, disk) && NoneSufficed(boots, i, BootCost(start))
      {
        PowerOn(boots[i].budget, false);
        ghost var before := disk;
        StaysSteady(start, before);
        assert boots[i] in boots;
        var _, _, _ := OnStart(false, false);
        BootsLeaveChain(start, before, disk);
        CostShrinks(start, before);
        WithinChain(start, before, disk);
        if power > 0 {
          order := StagedInOrder(start, disk);
          return true, order;
        }
        OneMoreTried(boots, i, BootCost(start));
      }
      NoneWasEnough(boots, BootCost(start));
    }

    lemma StagedInOrder(d: Disk, e: Disk) returns (order: seq<int>)
      requires Steady(d) && BootsLeave(d, e) && Scope(e.sessions) == {}
      ensures IsListing(order, Scope(d.sessions)) && SessionsTried(d.sessions, e.sessions, order)
      ensures SameData(e, StagedAll(d, order, d.sessions))
      ensures DifferentPackages(PlanOf(d.sessions)) ==> AsOneBoot(d, e)
    {
      hide Eligible, StagedAll, AllReadable, SessionsTried, DifferentPackages, PlanOf, ActivationOutcome;
      order :| LeaveInOrder(d, e, order);
      assert order + [] == order && IsListing<int>([], Scope(e.sessions));
      EmptyOrder(Data(e), d.sessions);
      assert StagedAll(Data(e), [], d.sessions) == StagedAll(Data(d), order + [], d.sessions);
      StagedAllData(d, order, d.sessions);
      if DifferentPackages(PlanOf(d.sessions)) {
        forall other | IsListing(other, Scope(d.sessions)) ensures SameData(e, StagedAll(d, other, d.sessions)) {
          AnyOrder(d, order, other);
        }
      }
    }

    lemma EmptyOrder(d: Disk, ss: Sessions)
      ensures StagedAll(d, [], ss) == d
    { }

    /** Sessions on different packages may be staged in any order. */
    lemma {:induction false} AnyOrder(d: Disk, order: seq<int>, other: seq<int>)
      requires DifferentPackages(PlanOf(d.sessions))
      requires IsListing(order, Scope(d.sessions)) && IsListing(other, Scope(d.sessions))
      ensures SameData(StagedAll(d, order, d.sessions), StagedAll(d, other, d.sessions))
    {
      hide Eligible, PackagesOf, Interrupted, StagedAll, DifferentPackages, IsApexFile;
      var plan := PlanOf(d.sessions);
      StagedAllInterrupts(d, order);
      StagedAllInterrupts(d, other);
      assert (set id | id in order && id in plan) == plan.Keys == (set id | id in other && id in plan);
      AllDoneDetermined(d, StagedAll(d, order, d.sessions), StagedAll(d, other, d.sessions), plan);
      InterruptedKeeps(d, StagedAll(d, order, d.sessions), plan, plan.Keys);
      InterruptedKeeps(d, StagedAll(d, other, d.sessions), plan, plan.Keys);
    }

    /** Staging the sessions in order is one of the boots. */
    lemma {:induction false} StagedAllInterrupts(d: Disk, order: seq<int>)
      requires DifferentPackages(PlanOf(d.sessions))
      requires IsListing(order, Elements(order)) && Elements(order) <= Scope(d.sessions)
      ensures Interrupted(d, StagedAll(d, order, d.sessions), PlanOf(d.sessions),
        set id | id in order && id in PlanOf(d.sessions))
    {
      hide Eligible, PackagesOf, Interrupted, DifferentPackages, Staged, IsApexFile;
      var plan := PlanOf(d.sessions);
      if order == [] {
        assert (set id | id in order && id in plan) == {};
        NothingInterrupted(d, plan);
      } else {
        var n := |order| - 1;
        var init, id := order[..n], order[n];
        assert order == init + [id] && id in order;
        StagedAllInterrupts(d, init);
        var done := set k | k in init && k in plan;
        var e := StagedAll(d, init, d.sessions);
        if Eligible(id, d.sessions[id]) {
          assert id in plan && id !in init;
          var rest := map[id := plan[id]];
          StagingDone(e, rest, id);
          InterruptedAgain(d, e, Staged(e, plan[id]), plan, rest, done, {id});
          assert (set k | k in order && k in plan) == done + {id};
        } else {
          assert (set k | k in order && k in plan) == done;
        }
      }
    }

    /** Backup, then any stagings, then a revert: the active directory holds the packages it held. No power
        is lost if there is enough for all the writes. */
    method BackupStageRevert(batches: seq<seq<Inode>>) returns (ok: bool)
      requires Valid() && !fsCheckpoints && disk.active.Some? && Revertible(disk.sessions) != {}
      modifies `disk, `power, `history
      ensures Ran()
      ensures power > 0 ==> (ok <==> Backupable(old(disk).active.value))
      ensures power > 0 && ok ==>
        && disk.active.Some? && disk.backup.None?
        && IsBackup(old(disk).active.value, disk.active.value)
        && PackagesIn(disk.active.value) == PackagesIn(old(disk).active.value)
        && disk.sessions == MarkedAll(old(disk).sessions, "", "", REVERTED)
      ensures old(power) > RoundTripCost(old(disk), batches) ==> power > 0
    {
      hide StageCut, IsBackup, PackagesIn, MarkedAll, IsApexFile, FileName, ApexFiles, BackupBound, StageCost,
          Backupable, BackupCut, Staged, PartlyPruned, Linked, Promoted;
      hide StagingsPaid, RoundTripCost, RevertCost, StagingsCost, Inputs, RevertLeaves, BackupAt, BackupCost;
      ghost var start, files, n: nat := disk, |disk.active.value|, 0;
      ok := BackupActivePackages();
      BackupIsPart(start, batches);
      if !ok {
        return;
      }
      ghost var backedUp, left := disk, power;
      NoStagings(batches, files, power);
      for i := 0 to |batches|
        invariant Ran() && power <= left && disk.backup == backedUp.backup && disk.sessions == start.sessions
        invariant disk.active.Some? && |disk.active.value| <= n + files
        invariant StagingsPaid(batches, i, files, n, left, power)
      {
        ghost var before, had := disk, power;
        var _ := StagePackages(batches[i]);
        if Stageable(batches[i]) {
          StageCutFrame(before, disk, Opened(batches[i]));
          StagingIsBounded(before, disk, Opened(batches[i]), n + files);
        }
        OneMoreStaging(batches, i, files, n, left, had, power);
        n := n + |batches[i]|;
      }
      AllStagings(batches, files, n, left, power);
      RoundTripIsEnough(start, disk, batches, old(power), left, power);
      ok := RevertActiveSessions("", "");
      if power > 0 {
        BackupDetermined(start.active.value, backedUp.backup.value, backedUp.backup.value);
      }
    }

    // ---------- Requests, served while no session is being reverted ----------

    /** A submission that a power loss may cut, the next boot, and a revert. The packages come all from the
        active directory or all from the backup before the submission. They are those of the active
        directory exactly if the power covered the whole backup, unless all its files had been backed up
        before. Without a backup to begin with and without a single write, there is nothing to restore. */
    method SubmitCutThenRevert(id: int, children: seq<int>, budget: nat, again: nat)
      requires Valid() && !fsCheckpoints && AtRest(disk.sessions) && Revertible(disk.sessions) != {}
      requires Scope(disk.sessions) == {}
      requires id != 0 && disk.active.Some? && Backupable(disk.active.value) && NamedById(Files(disk.backup))
      modifies `disk, `power, `history, `inCheckpoint
      ensures Valid() && old(history) <= history
      ensures power > 0 ==> AllFinal(disk.sessions) && disk.active.Some?
      ensures power > 0 && old(disk).backup.None? && budget == 0 ==> disk.active == old(disk).active
      ensures power > 0 && (old(disk).backup.Some? || budget > 0) ==>
        && AllFromOne(Files(disk.active), Files(old(disk).active), Files(old(disk).backup))
        && (budget >= BackupCost(old(disk).backup, old(disk).active.value) ==>
              PackagesIn(disk.active.value) == PackagesIn(old(disk).active.value))
        && (budget < BackupCost(old(disk).backup, old(disk).active.value) &&
            PackagesIn(disk.active.value) == PackagesIn(old(disk).active.value) ==>
              BackedUpBefore(old(disk).active.value, old(disk).backup))
      ensures power > 0 && old(disk).backup.Some? && budget < |old(disk).backup.value| ==>
        SubDir(disk.active.value, old(disk).backup.value) && |disk.active.value| == |old(disk).backup.value| - budget
      ensures again > RevertCostAfter(old(disk), budget) ==> power > 0
    {
      hide Backupable, BackupAt, BackupCut, BackupCost, PackagesIn, NamedById, MarkedAll, BackedUpBefore, BackedUp;
      hide ReadyToActivate, Within, BootCost, BootsLeave, Steady, RevertCost, RevertCostAfter, SubmitBound, CanRevert;
      ghost var start, dir := disk, disk.active.value;
      PowerOn(budget, false);
      var _ := SubmitStagedSession(id, children, false, false);
      ghost var cut := disk;
      SubmittedIsInPlay(start.sessions, cut.sessions, id, Submitted(children));
      RevertAfterCosts(start, cut, id, Submitted(children), budget);
      PowerOn(again, false);
      var _, _, _ := OnStart(false, false);
      assert disk == cut;
      var _ := RevertActiveSessions("", "");
      if power > 0 {
        CutBackupReverted(start.backup, dir, budget, cut, "", "");
        RevertedAtRest(cut, false, "", "");
      }
    }

    /** The most writes of a revert after a submission that could make `budget` writes: two more if the
        submitted session may be there. */
    function RevertCostAfter(d: Disk, budget: nat): nat
      requires d.active.Some?
    {
      if budget <= BackupCost(d.backup, d.active.value) then RevertCost(d) else RevertCost(d) + 2
    }

    lemma RevertibleAfterSubmission(before: Sessions, after: Sessions, id: int, s: Session)
      requires after in {before, before[id := s]} && s.state == VERIFIED
      ensures Revertible(before) <= Revertible(after) && |Revertible(after)| <= |Revertible(before)| + 1
    {
      NotMore(Revertible(after), Revertible(before) + {id});
    }

    lemma RevertAfterCosts(d: Disk, e: Disk, id: int, s: Session, budget: nat)
      requires e == d.(backup := e.backup, sessions := e.sessions) && d.active.Some? && s.state == VERIFIED
      requires e.sessions in {d.sessions, d.sessions[id := s]} && Revertible(d.sessions) != {}
      requires budget <= BackupCost(d.backup, d.active.value) ==> e.sessions == d.sessions
      ensures RevertCost(e) <= RevertCostAfter(d, budget)
    {
      RevertibleAfterSubmission(d.sessions, e.sessions, id, s);
    }

    lemma SubmittedIsInPlay(before: Sessions, after: Sessions, id: int, s: Session)
      requires Revertible(before) != {} && Scope(before) == {} && !fsCheckpoints && s.state == VERIFIED
      requires after in {before, before[id := s]}
      ensures Revertible(after) != {} && Scope(after) == {}
      ensures |Revertible(after)| <= |Revertible(before)| + 1
    {
      RevertibleAfterSubmission(before, after, id, s);
      forall k ensures k !in Scope(after) {
        assert k !in Scope(before);
      }
      assert after != before ==> id in Revertible(after);
    }

    /** Two packages at version 1 in the backup, version 2 of both active: a second submission that loses
        power after one write, and a revert. One package is lost, and the other is back at version 1. */
    method CutSubmissionLosesPackages(again: nat)
      requires Valid() && !fsCheckpoints && again >= 6
      requires disk == Disk(
        Some(map[FileName(A2) := Package(A2), FileName(B2) := Package(B2)]),
        Some(map[FileName(A1) := Package(A1), FileName(B1) := Package(B1)]),
        map[], map[], map[], map[1 := Session(ACTIVATED, [], fingerprint, "", "")])
      modifies `disk, `power, `history, `inCheckpoint
      ensures power > 0 && AllFinal(disk.sessions)
      ensures
        || disk.active == Some(map[FileName(A1) := Package(A1)])
        || disk.active == Some(map[FileName(B1) := Package(B1)])
    {
      hide FileName, BackedUpBefore, PackagesIn, AllFinal, NamedById, Backupable;
      ghost var before := disk.backup.value;
      ExampleDirectories(disk.active.value, before);
      assert Revertible(disk.sessions) == {1};
      assert forall id :: id !in Scope(disk.sessions);
      SubmitCutThenRevert(2, [], 1, again);
      OneOfTwo(disk.active.value, FileName(A1), Package(A1), FileName(B1), Package(B1));
    }

    /** VerifySessionDir: exactly one APEX, which passes the checks made at install time. */
    method VerifySessionDir(dir: int) returns (ok: bool)
      ensures ok <==> Installable(dir)
    {
      hide IsApexFile;
      if dir !in sessionFiles {
        return false;
      }
      var scan := List(ApexFiles(sessionFiles[dir]));
      if |scan| != 1 {
        return false;
      }
      assert ApexFiles(sessionFiles[dir]) == {scan[0]};
      var f := sessionFiles[dir][scan[0]];
      ok := f.Package? && installVerified(f.apex);
    }

    method VerifySessionDirs(dirs: seq<int>) returns (ok: bool)
      ensures ok <==> forall d :: d in dirs ==> Installable(d)
    {
      hide Installable;
      for i := 0 to |dirs|
        invariant forall j :: 0 <= j < i ==> Installable(dirs[j])
      {
        ok := VerifySessionDir(dirs[i]);
        if !ok {
          return;
        }
      }
      ok := true;
    }

    ghost predicate Installable(dir: int) {
      && dir in sessionFiles && |ApexFiles(sessionFiles[dir])| == 1
      && OnlyApex(sessionFiles[dir]).Package? && installVerified(OnlyApex(sessionFiles[dir]).apex)
    }

    method SubmitStagedSession(id: int, children: seq<int>, rollbackEnabled: bool, isRollback: bool) returns (ok: bool)
      requires Valid() && AtRest(disk.sessions)
      modifies `disk, `power, `history
      ensures Ran() && AtRest(disk.sessions)
      ensures disk == old(disk).(backup := disk.backup, sessions := disk.sessions)
      ensures disk.sessions in {old(disk).sessions, old(disk).sessions[id := Submitted(children)]}
      ensures !fsCheckpoints && id != 0 && old(disk).active.Some? && Backupable(old(disk).active.value) ==>
        && BackupAt(old(disk).backup, old(disk).active.value, old(power), disk.backup)
        && (old(power) <= BackupCost(old(disk).backup, old(disk).active.value) ==>
              power == 0 && disk.sessions == old(disk).sessions)
      ensures fsCheckpoints || id == 0 ==> disk.backup == old(disk).backup
      ensures !fsCheckpoints && id != 0 && old(disk).active.Some? ==>
        BackupCut(old(disk).backup, old(disk).active.value, disk.backup)
      ensures power > 0 ==> (disk.sessions == old(disk).sessions[id := Submitted(children)] || !ok)
      ensures power > 0 && !ok ==> disk.sessions == old(disk).sessions
      ensures power > 0 ==> (ok <==> Accepts(old(disk), id, children, rollbackEnabled && isRollback))
      ensures (power > 0 && ok && !fsCheckpoints) || old(disk).backup.Some? ==> disk.backup.Some?
      ensures power > 0 && id != 0 && !fsCheckpoints && old(disk).active.Some? ==>
        BackedUp(old(disk).active.value, disk.backup)
      ensures old(power) <= power + SubmitBound(old(disk))
    {
      hide IsApexFile, FileName, IsBackup, BackupCut, BackupAt, BackupCost, BackupBound, Backupable, Installable,
          DirsOf;
      if id == 0 {
        return false;
      }
      if !fsCheckpoints {
        ok := BackupActivePackages();
        if !ok {
          return;
        }
      }
      ok := AcceptSession(id, children, rollbackEnabled && isRollback);
    }

    /** The submissions that are accepted: each directory holds one installable APEX, and the backup succeeds. */
    ghost predicate Accepts(d: Disk, id: int, children: seq<int>, refused: bool) {
      && id != 0 && !refused
      && (fsCheckpoints || d.active.None? || Backupable(d.active.value))
      && forall i :: i in DirsOf(id, Submitted(children)) ==> Installable(i)
    }

    /** The most writes of a submission. */
    function SubmitBound(d: Disk): nat {
      if fsCheckpoints then 1 else BackupBound(d.backup, d.active) + 1
    }

    /** The part of SubmitStagedSession after the backup: verifies the session and commits it. */
    method AcceptSession(id: int, children: seq<int>, refused: bool) returns (ok: bool)
      requires Valid() && AtRest(disk.sessions)
      modifies `disk, `power, `history
      ensures Ran() && AtRest(disk.sessions) && disk == old(disk).(sessions := disk.sessions)
      ensures disk.sessions == old(disk).sessions || disk.sessions == old(disk).sessions[id := Submitted(children)]
      ensures ok <==> !refused && forall d :: d in DirsOf(id, Submitted(children)) ==> Installable(d)
      ensures !ok ==> disk.sessions == old(disk).sessions
      ensures power > 0 && ok ==> disk.sessions == old(disk).sessions[id := Submitted(children)]
      ensures old(power) <= power + 1
    {
      hide Installable, DirsOf;
      ok := VerifySessionDirs(DirsOf(id, Submitted(children)));
      if !ok {
        return;
      }
      if refused {
        return false;
      }
      Do(Commit(id, Submitted(children)));
    }

    /** A freshly submitted session. */
    function Submitted(children: seq<int>): Session {
      Session(VERIFIED, children, fingerprint, "", "")
    }

    method MarkStagedSessionReady(id: int) returns (ok: bool)
      requires Valid() && AtRest(disk.sessions)
      modifies `disk, `power, `history
      ensures Ran() && AtRest(disk.sessions) && disk == old(disk).(sessions := disk.sessions)
      ensures ok <==> id in old(disk).sessions && old(disk).sessions[id].state in {VERIFIED, STAGED}
      ensures disk.sessions == old(disk).sessions ||
        (ok && disk.sessions == old(disk).sessions[id := old(disk).sessions[id].(state := STAGED)])
      ensures power > 0 && ok ==> disk.sessions == old(disk).sessions[id := old(disk).sessions[id].(state := STAGED)]
      ensures old(power) <= power + 1
    {
      if id !in disk.sessions {
        return false;
      }
      var session := disk.sessions[id];
      if session.state == STAGED {
        return true;
      }
      if session.state == VERIFIED {
        Do(Commit(id, session.(state := STAGED)));
        return true;
      }
      ok := false;
    }

    method MarkStagedSessionSuccessful(id: int) returns (ok: bool)
      requires Valid() && AtRest(disk.sessions)
      modifies `disk, `power, `history
      ensures Ran() && AtRest(disk.sessions) && disk == old(disk).(backup := disk.backup, sessions := disk.sessions)
      ensures ok <==> id in old(disk).sessions && old(disk).sessions[id].state in {ACTIVATED, SUCCESS}
      ensures !ok || old(disk).sessions[id].state == SUCCESS ==> disk == old(disk)
      ensures (disk.backup.Some? <==> old(disk).backup.Some?) && SubDir(Files(disk.backup), Files(old(disk).backup))
      ensures disk.sessions == old(disk).sessions ||
        (ok && disk.sessions == old(disk).sessions[id := old(disk).sessions[id].(state := SUCCESS)])
      ensures disk.sessions != old(disk).sessions ==> Files(disk.backup) == map[]
      ensures power > 0 && ok && old(disk).sessions[id].state == ACTIVATED ==> Files(disk.backup) == map[]
      ensures power > 0 && ok ==> disk.sessions == old(disk).sessions[id := old(disk).sessions[id].(state := SUCCESS)]
      ensures old(power) <= power + |Files(old(disk).backup)| + 1
    {
      if id !in disk.sessions {
        return false;
      }
      var session := disk.sessions[id];
      if session.state == SUCCESS {
        assert disk.sessions == disk.sessions[id := session];
        return true;
      }
      if session.state == ACTIVATED {
        DeleteBackup();
        Do(Commit(id, session.(state := SUCCESS)));
        return true;
      }
      ok := false;
    }

    method AbortStagedSession(id: int) returns (ok: bool)
      requires Valid() && AtRest(disk.sessions)
      modifies `disk, `power, `history
      ensures Ran() && AtRest(disk.sessions) && disk == old(disk).(sessions := disk.sessions)
      ensures ok <==> id in old(disk).sessions && old(disk).sessions[id].state in {VERIFIED, STAGED}
      ensures disk.sessions == old(disk).sessions || (ok && disk.sessions == old(disk).sessions - {id})
      ensures power > 0 && ok ==> disk.sessions == old(disk).sessions - {id}
      ensures old(power) <= power + 1
    {
      if id !in disk.sessions || disk.sessions[id].state !in {VERIFIED, STAGED} {
        return false;
      }
      Do(DeleteSession(id));
      ok := true;
    }

    /** BootCompletedCleanup: removes the APEX files on data that are not mounted, and finalized sessions. */
    method BootCompletedCleanup(mounted: MountedFiles)
      requires Valid() && AtRest(disk.sessions)
      modifies `disk, `power, `history
      ensures Ran() && AtRest(disk.sessions)
      ensures disk == old(disk).(active := disk.active, decompressed := disk.decompressed, sessions := disk.sessions)
      ensures OnlyUnmountedRemoved(old(disk), disk, mounted)
      ensures OnlyFinalizedDeleted(old(disk).sessions, disk.sessions)
      ensures power > 0 ==> NoUnmountedLeft(disk, mounted)
      ensures power > 0 ==> forall id :: id in disk.sessions ==> !disk.sessions[id].IsFinalized()
      ensures old(power) <= power + CleanupCost(old(disk))
    {
      hide IsApexFile, OnlyUnmountedRemoved, NoUnmountedLeft, OnlyFinalizedDeleted;
      RemoveInactiveDataApex(mounted);
      ghost var start := disk;
      DeleteFinalizedSessions();
      CleanupIgnoresSessions(old(disk), start, disk, mounted);
    }

    function CleanupCost(d: Disk): nat {
      |Files(d.active)| + |d.decompressed| + |d.sessions|
    }

    method DeleteFinalizedSessions()
      requires Valid() && AtRest(disk.sessions)
      modifies `disk, `power, `history
      ensures Ran() && AtRest(disk.sessions) && disk == old(disk).(sessions := disk.sessions)
      ensures OnlyFinalizedDeleted(old(disk).sessions, disk.sessions)
      ensures power > 0 ==> forall id :: id in disk.sessions ==> !disk.sessions[id].IsFinalized()
      ensures old(power) <= power + |old(disk).sessions|
    {
      hide CleanedSoFar, OnlyFinalizedDeleted;
      ghost var before := disk.sessions;
      var ids := List(disk.sessions.Keys);
      NothingCleaned(before, ids);
      for i := 0 to |ids|
        invariant Ran() && AtRest(disk.sessions) && disk == old(disk).(sessions := disk.sessions)
        invariant CleanedSoFar(before, disk.sessions, ids, i, power > 0) && old(power) <= power + i
      {
        ghost var now, left := disk.sessions, power;
        NextToClean(before, now, ids, i, left > 0);
        if disk.sessions[ids[i]].IsFinalized() {
          Do(DeleteSession(ids[i]));
        }
        OneMoreCleaned(before, now, disk.sessions, ids, i, left > 0, power > 0);
      }
      AllCleaned(before, disk.sessions, ids, power > 0);
    }

    /** RemoveInactiveDataApex: the APEX files of the active directory, then the decompressed ones. */
    method RemoveInactiveDataApex(mounted: MountedFiles)
      requires Valid()
      modifies `disk, `power, `history
      ensures Ran() && disk == old(disk).(active := disk.active, decompressed := disk.decompressed)
      ensures OnlyUnmountedRemoved(old(disk), disk, mounted)
      ensures power > 0 ==> NoUnmountedLeft(disk, mounted)
      ensures old(power) <= power + |Files(old(disk).active)| + |old(disk).decompressed|
    {
      RemoveInactiveActive(mounted);
      RemoveInactiveDecompressed(mounted);
    }

    method RemoveInactiveActive(mounted: MountedFiles)
      requires Valid()
      modifies `disk, `power, `history
      ensures Ran() && disk == old(disk).(active := disk.active)
      ensures OnlyUnmountedRemoved(old(disk), disk, mounted)
      ensures power > 0 ==> forall n :: n in Files(disk.active) && IsApexFile(n) ==> n in mounted.active
      ensures old(power) <= power + |Files(old(disk).active)|
    {
      hide IsApexFile, IsDecompressedFile;
      var dir := Files(disk.active);
      var files := List(ApexFiles(dir));
      ApexFilesAreFew(dir);
      for i := 0 to |files|
        invariant old(power) <= power + i
        invariant Ran() && disk == old(disk).(active := disk.active) && (disk.active.Some? <==> old(disk).active.Some?)
        invariant SubDir(Files(disk.active), dir)
        invariant forall n :: n in dir && (n in mounted.active || !IsApexFile(n)) ==> n in Files(disk.active)
        invariant power > 0 ==> forall n :: n in Files(disk.active) && n in files[..i] ==> n in mounted.active
      {
        assert files[i] in ApexFiles(dir);
        assert files[..i + 1] == files[..i] + [files[i]];
        if files[i] !in mounted.active {
          Do(UnlinkActive(files[i]));
        }
      }
      assert files[..|files|] == files;
    }

    method RemoveInactiveDecompressed(mounted: MountedFiles)
      requires Valid()
      modifies `disk, `power, `history
      ensures Ran() && disk == old(disk).(decompressed := disk.decompressed)
      ensures SubDir(disk.decompressed, old(disk).decompressed)
      ensures forall n ::
        n in old(disk).decompressed && (n in mounted.decompressed || !IsDecompressedFile(n)) ==>
          n in disk.decompressed
      ensures power > 0 ==> forall n :: n in disk.decompressed && IsDecompressedFile(n) ==> n in mounted.decompressed
      ensures old(power) <= power + |old(disk).decompressed|
    {
      hide IsDecompressedFile;
      var dir := disk.decompressed;
      var files := List(DecompressedFiles(dir));
      for i := 0 to |files|
        invariant Ran() && old(power) <= power + i && disk == old(disk).(decompressed := disk.decompressed)
        invariant SubDir(disk.decompressed, dir)
        invariant forall n ::
          n in dir && (n in mounted.decompressed || !IsDecompressedFile(n)) ==> n in disk.decompressed
        invariant power > 0 ==> forall n :: n in disk.decompressed && n in files[..i] ==> n in mounted.decompressed
      {
        assert files[..i + 1] == files[..i] + [files[i]];
        if files[i] !in mounted.decompressed {
          Do(UnlinkDecompressed(files[i]));
        }
      }
      assert files[..|files|] == files;
    }

    // ---------- Whole runs ----------

    /** /data goes back to an earlier checkpoint between two boots; the session files do not. */
    method RollBackData(active: Option<Dir>, backup: Option<Dir>, decompressed: Dir,
                        trees: map<string, string>, newTrees: map<string, string>)
      requires Valid()
      modifies `disk, `history
      ensures Valid() && old(history) <= history
      ensures disk == Disk(active, backup, decompressed, trees, newTrees, old(disk).sessions)
    {
      disk := Disk(active, backup, decompressed, trees, newTrees, disk.sessions);
      history := history + [disk];
    }

    /** What a boot or a request made of the disk if it was not cut, and that it was not cut if it had more power
        than it can use. */
    ghost predicate Happened(t: Step)
      reads `inCheckpoint
    {
      match t.event
      case Boot(_, _, _, _) =>
        && t.power <= t.left + BootCost(t.before)
        && (t.left > 0 ==> exists order :: ReadyToActivate(t.before, t.after, order, false))
      case DataRolledBack(_, _, _, _, _) => t.after == t.before && t.left == t.power
      case Request(r) =>
        && t.power <= t.left + RequestCost(t.before, r)
        && (t.served && t.left > 0 ==> Answered(r, t.before, t.after))
    }

    /** What an uncut request makes of the disk. */
    ghost predicate Answered(r: Request, d: Disk, e: Disk) {
      match r
      case Submit(id, children, rollbackEnabled, isRollback) =>
        && e == d.(backup := e.backup, sessions := e.sessions)
        && e.sessions == (if Accepts(d, id, children, rollbackEnabled && isRollback)
                          then d.sessions[id := Submitted(children)] else d.sessions)
        && (id != 0 && !fsCheckpoints && d.active.Some? ==> BackedUp(d.active.value, e.backup))
      case MarkReady(id) => e == d.(sessions := Moved(d.sessions, id, {VERIFIED, STAGED}, STAGED))
      case MarkSuccessful(id) =>
        && e == d.(backup := e.backup, sessions := Moved(d.sessions, id, {ACTIVATED, SUCCESS}, SUCCESS))
        && (StateOf(d, id) == Some(ACTIVATED) ==> Files(e.backup) == map[])
      case Abort(id) =>
        e == if StateOf(d, id) in {Some(VERIFIED), Some(STAGED)} then d.(sessions := d.sessions - {id}) else d
      case BootCompleted(mounted) =>
        && e == d.(active := e.active, decompressed := e.decompressed, sessions := e.sessions)
        && OnlyUnmountedRemoved(d, e, mounted) && NoUnmountedLeft(e, mounted)
        && OnlyFinalizedDeleted(d.sessions, e.sessions)
        && (forall id :: id in e.sessions ==> !e.sessions[id].IsFinalized())
      case Revert => e == if Revertible(d.sessions) == {} then d else Reverted(d, fsCheckpoints, "", "")
      case ProcessCrashing(p) => e == if Revertible(d.sessions) == {} then d else Reverted(d, fsCheckpoints, p, "")
    }

    /** One event of a run. Requests are served only while `serving`. */
    method Handle(e: Event, serving: bool) returns (still: bool, ghost t: Step)
      requires Valid() && (serving ==> power > 0 && AtRest(disk.sessions))
      modifies `disk, `power, `history, `inCheckpoint
      ensures Valid() && old(history) <= history
      ensures still ==> power > 0 && AtRest(disk.sessions)
      ensures t == Step(e, serving && e.Request?, old(disk), if e.Boot? then e.budget else old(power), disk, power)
      ensures !t.served && !e.Boot? && !fsCheckpoints ==> disk == old(disk) && power == old(power)
      ensures !fsCheckpoints && AtRest(old(disk).sessions) && Peaceful(e) ==>
        && AtRest(disk.sessions) && BackupStep(t) && Happened(t)
        && (still <==> (e.Boot? || serving) && (e.DataRolledBack? || power > 0))
    {
      hide ReadyToActivate, Reverting, BackupStep, Within, BootCost, RequestCost, Answered;
      still := serving;
      ghost var had := if e.Boot? then e.budget else power;
      match e {
        case Boot(budget, needsCheckpoint, needsRollback, activationFails) =>
          PowerOn(budget, needsCheckpoint);
          var rebooting, _, _ := OnStart(needsRollback, activationFails);
          still := power > 0 && !rebooting;
        case DataRolledBack(active, backup, decompressed, trees, newTrees) =>
          if fsCheckpoints && !serving {
            RollBackData(active, backup, decompressed, trees, newTrees);
          }
        case Request(r) =>
          if serving {
            var rebooting := Serve(r);
            still := power > 0 && !rebooting;
          }
      }
      t := Step(e, serving && e.Request?, old(disk), had, disk, power);
      if !fsCheckpoints && AtRest(old(disk).sessions) && Peaceful(e) && !t.served {
        UnservedStep(t);
      }
    }

    /** Any sequence of boots, requests, crashes and checkpoint rollbacks. Requests are served one at
        a time, after a boot that got through; when the power budget is used up, only a boot helps.
        The history is a legal run of every session, and requests only ever meet sessions at rest. A
        peaceful run without checkpoints leaves a trace that says what each event made of the backup. */
    method Run(events: seq<Event>) returns (serving: bool, ghost trace: seq<Step>)
      requires Valid()
      modifies `disk, `power, `history, `inCheckpoint
      ensures Valid() && old(history) <= history
      ensures serving ==> power > 0 && AtRest(disk.sessions)
      ensures !fsCheckpoints && AtRest(old(disk).sessions) && (forall e :: e in events ==> Peaceful(e)) ==>
        && Traced(trace, events, old(disk), old(power), disk) && power == LeftAfter(trace, old(power))
        && serving == ServingAfter(trace) && AtRest(disk.sessions)
        && forall t :: t in trace ==> Happened(t)
    {
      hide Traced, BackupStep, ServingAfter, Happened, Peaceful;
      serving := false;
      trace := [];
      ghost var quiet := !fsCheckpoints && AtRest(disk.sessions) && forall e :: e in events ==> Peaceful(e);
      NothingTraced(disk, power);
      for i := 0 to |events|
        invariant Valid() && old(history) <= history
        invariant serving ==> power > 0 && AtRest(disk.sessions)
        invariant quiet ==>
          && Traced(trace, events[..i], old(disk), old(power), disk) && power == LeftAfter(trace, old(power))
          && serving == ServingAfter(trace) && AtRest(disk.sessions) && forall t :: t in trace ==> Happened(t)
      {
        assert events[i] in events && events[..i + 1] == events[..i] + [events[i]];
        ghost var t;
        serving, t := Handle(events[i], serving);
        if quiet {
          TraceGrows(trace, events[..i], old(disk), old(power), t);
        }
        trace := trace + [t];
      }
      assert events[..|events|] == events;
    }

    /** A peaceful run and a revert, from a disk on which `dir` is backed up: the revert brings back what is in
        the backup, and that are the packages of `dir` if and only if they are still backed up, as the last
        request that wrote the backup decides. */
    method RunRevert(ghost dir: Dir, events: seq<Event>)
      returns (served: bool, reverted: bool, ghost run: PeacefulRun)
      requires Valid() && !fsCheckpoints && AtRest(disk.sessions) && disk.active.Some?
      requires disk.backup.Some? && Backupable(dir) && IsBackup(dir, disk.backup.value)
      requires forall e :: e in events ==> Peaceful(e)
      modifies `disk, `power, `history, `inCheckpoint
      ensures Valid() && old(history) <= history
      ensures run.Of(events) && run.start == old(disk) && run.power == old(power)
      ensures forall t :: t in run.trace ==> Happened(t)
      ensures served == ServingAfter(run.trace) && (!served ==> !reverted && disk == run.end)
      ensures served && run.Left() > RevertCost(run.end) ==> power > 0
      ensures served && power > 0 ==> (reverted <==> Revertible(run.end.sessions) != {})
      ensures power > 0 && reverted ==> disk.active == run.end.backup && disk.active.Some? && AllFinal(disk.sessions)
      ensures power > 0 && reverted && LastTouchWhole(run.trace) ==>
        && (PackagesIn(disk.active.value) == PackagesIn(dir) <==> StillBackedUp(dir, run.trace))
        && (StillBackedUp(dir, run.trace) ==> IsBackup(dir, disk.active.value))
    {
      hide Traced, Peaceful, Happened, Backupable, IsBackup, PackagesIn, MarkedAll, RevertLeaves, LastTouchWhole,
          StillBackedUp, RevertCost;
      ghost var start, had := disk, power;
      ghost var trace;
      served, trace := Run(events);
      run, reverted := PeacefulRun(start, had, trace, disk), false;
      BackupIsLastTouch(trace, events, start, had, disk);
      if LastTouchWhole(trace) {
        RestoredIff(trace, events, start, had, disk, dir);
      }
      if served {
        RevertedAtRest(disk, false, "", "");
        reverted := RevertActiveSessions("", "");
      }
    }

    /** What a revert brings back after an accepted submission and any peaceful run of boots, crashes and
        requests: the packages that were active at the submission, if and only if they are still backed up. */
    method SubmitRunRevert(id: int, children: seq<int>, events: seq<Event>)
      returns (accepted: bool, served: bool, reverted: bool, ghost run: PeacefulRun)
      requires Valid() && !fsCheckpoints && AtRest(disk.sessions) && disk.active.Some?
      requires forall e :: e in events ==> Peaceful(e)
      modifies `disk, `power, `history, `inCheckpoint
      ensures Valid() && old(history) <= history
      ensures old(power) > SubmitBound(old(disk)) ==> (accepted <==> Accepts(old(disk), id, children, false))
      ensures accepted ==>
        && run.Of(events) && (forall t :: t in run.trace ==> Happened(t))
        && run.start == old(disk).(backup := run.start.backup, sessions := run.start.sessions)
        && run.start.sessions == old(disk).sessions[id := Submitted(children)]
        && BackedUp(old(disk).active.value, run.start.backup) && old(power) <= run.power + SubmitBound(old(disk))
      ensures (served <==> accepted && ServingAfter(run.trace)) && (reverted ==> served)
      ensures served && run.Left() > RevertCost(run.end) ==> power > 0
      ensures served && power > 0 ==> (reverted <==> Revertible(run.end.sessions) != {})
      ensures power > 0 && reverted && LastTouchWhole(run.trace) ==>
        && disk.active.Some? && AllFinal(disk.sessions)
        && (PackagesIn(disk.active.value) == PackagesIn(old(disk).active.value) <==>
              StillBackedUp(old(disk).active.value, run.trace))
    {
      hide Peaceful, Backupable, BackupAt, BackupCut, BackupCost, IsBackup, PackagesIn, LastTouchWhole, StillBackedUp;
      hide Traced, Installable, SubmitBound, Happened, RevertCost, ServingAfter, Revertible;
      ghost var dir := disk.active.value;
      accepted := SubmitStagedSession(id, children, false, false);
      accepted, served, reverted, run := accepted && power > 0, false, false, PeacefulRun(disk, power, [], disk);
      if accepted {
        served, reverted, run := RunRevert(dir, events);
      }
    }

    /** A later submission backs up the updated packages before it is verified. So whether it is accepted or
        refused, a revert afterwards leaves the updates in place, and the sessions that brought them REVERTED. */
    method SecondSubmissionThenRevert(id: int, children: seq<int>, rollbackEnabled: bool, isRollback: bool)
      returns (accepted: bool)
      requires Valid() && !fsCheckpoints && AtRest(disk.sessions) && Revertible(disk.sessions) != {} && id != 0
      requires disk.active.Some? && Backupable(disk.active.value)
      modifies `disk, `power, `history
      ensures Ran()
      ensures power > 0 ==> (accepted <==>
        !(rollbackEnabled && isRollback) && forall d :: d in DirsOf(id, Submitted(children)) ==> Installable(d))
      ensures power > 0 ==>
        && disk.active.Some? && disk.backup.None? && IsBackup(old(disk).active.value, disk.active.value)
        && PackagesIn(disk.active.value) == PackagesIn(old(disk).active.value)
        && (forall k :: k in Revertible(old(disk).sessions) ==> StateOf(disk, k) == Some(REVERTED))
      ensures power > 0 && !accepted ==> disk.sessions.Keys == old(disk).sessions.Keys
      ensures old(power) > SubmitBound(old(disk)) + RevertCost(old(disk)) + 2 ==> power > 0
    {
      hide Backupable, BackupAt, BackupCut, BackupCost, IsBackup, PackagesIn, Installable, SubmitBound, RevertLeaves;
      ghost var start := disk;
      accepted := SubmitStagedSession(id, children, rollbackEnabled, isRollback);
      ghost var ready := disk;
      RevertibleAfterSubmission(start.sessions, ready.sessions, id, Submitted(children));
      var _ := RevertActiveSessions("", "");
      if power > 0 {
        BackupDetermined(start.active.value, ready.backup.value, ready.backup.value);
      }
    }

    /** A session has brought version 2 and is ACTIVATED; a submission for which there is no directory is refused.
        A revert then leaves version 2 active and the session REVERTED. */
    method RefusedSubmissionKeepsUpdate() returns (accepted: bool)
      requires Valid() && !fsCheckpoints && 2 !in sessionFiles && power >= 11
      requires disk == Disk(Some(map[FileName(A2) := Package(A2)]), Some(map[FileName(A1) := Package(A1)]),
                            map[], map[], map[], map[1 := Session(ACTIVATED, [], fingerprint, "", "")])
      modifies `disk, `power, `history
      ensures power > 0 && !accepted
      ensures disk.active == Some(map[FileName(A2) := Package(A2)]) && disk.backup.None?
      ensures disk.sessions.Keys == {1} && disk.sessions[1].state == REVERTED
    {
      hide FileName, Backupable, IsBackup, PackagesIn;
      ghost var dir, backup := disk.active.value, disk.backup.value;
      OnePackage(A2, dir);
      OnePackage(A1, backup);
      assert Revertible(disk.sessions) == {1};
      assert 2 in DirsOf(2, Submitted([])) && !Installable(2);
      hide Installable;
      accepted := SecondSubmissionThenRevert(2, [], false, false);
      BackupDetermined(dir, dir, disk.active.value);
    }

    /** The success mark of one session empties the backup that all sessions share: a revert of another
        session afterwards leaves no package in the active directory. */
    method SuccessThenRevert(id: int, other: int)
      requires Valid() && !fsCheckpoints && AtRest(disk.sessions) && disk.active.Some? && disk.backup.Some?
      requires id in disk.sessions && disk.sessions[id].state == ACTIVATED
      requires other != id && other in disk.sessions && disk.sessions[other].IsRevertible()
      modifies `disk, `power, `history
      ensures Ran()
      ensures power > 0 ==>
        && disk.active == Some(map[]) && disk.backup.None?
        && StateOf(disk, other) == Some(REVERTED) && StateOf(disk, id) == Some(SUCCESS)
      ensures old(power) > |old(disk).backup.value| + 1 + RevertCost(old(disk)) ==> power > 0
    {
      hide RevertLeaves;
      ghost var start := disk;
      var _ := MarkStagedSessionSuccessful(id);
      ghost var marked, left := disk, power;
      assert left > 0 ==> other in Revertible(marked.sessions) && id !in Revertible(marked.sessions);
      NotMore(Revertible(marked.sessions), Revertible(start.sessions));
      var _ := RevertActiveSessions("", "");
      assert power > 0 ==> left > 0;
    }

    /** The most writes of a request. */
    function RequestCost(d: Disk, r: Request): nat {
      match r
      case Submit(_, _, _, _) => SubmitBound(d)
      case MarkReady(_) => 1
      case MarkSuccessful(_) => |Files(d.backup)| + 1
      case Abort(_) => 1
      case BootCompleted(_) => CleanupCost(d)
      case Revert => RevertCost(d)
      case ProcessCrashing(_) => RevertCost(d)
    }

    /** Serves a request. Reverting on request does not reboot; reverting because an updated process keeps
        crashing does. */
    method Serve(r: Request) returns (rebooting: bool)
      requires Valid() && AtRest(disk.sessions)
      modifies `disk, `power, `history
      ensures Ran()
      ensures rebooting ==> r.ProcessCrashing?
      ensures !fsCheckpoints && Peaceful(Event.Request(r)) ==>
        AtRest(disk.sessions) && BackupStep(Step(Event.Request(r), true, old(disk), old(power), disk, power))
      ensures power > 0 ==> AtRest(disk.sessions)
      ensures power > 0 ==> Answered(r, old(disk), disk)
      ensures old(power) <= power + RequestCost(old(disk), r)
    {
      hide BackupCut, BackupAt, BackupCost, IsBackup, Backupable, Installable, BackupStep, SubDir,
          IsApexFile, Reverted, RevertLeaves, NoUnmountedLeft, SubmitBound, CleanupCost, RevertCost, BackedUp;
      rebooting := false;
      ghost var t := Step(Event.Request(r), true, disk, power, disk, power);
      match r
      case Submit(id, children, rollbackEnabled, isRollback) =>
        var _ := SubmitStagedSession(id, children, rollbackEnabled, isRollback);
        t := t.(after := disk, left := power);
        if !fsCheckpoints {
          if id == 0 {
            OtherRequestStep(t);
          } else {
            SubmissionIsStep(t);
          }
        }
      case MarkReady(id) =>
        var _ := MarkStagedSessionReady(id);
        OtherRequestStep(t.(after := disk, left := power));
      case MarkSuccessful(id) =>
        var _ := MarkStagedSessionSuccessful(id);
        MarkIsStep(t.(after := disk, left := power));
      case Abort(id) =>
        var _ := AbortStagedSession(id);
        OtherRequestStep(t.(after := disk, left := power));
      case BootCompleted(mounted) =>
        BootCompletedCleanup(mounted);
        OtherRequestStep(t.(after := disk, left := power));
      case Revert =>
        RevertedAtRest(disk, fsCheckpoints, "", "");
        var _ := RevertActiveSessions("", "");
      case ProcessCrashing(process) =>
        RevertedAtRest(disk, fsCheckpoints, process, "");
        rebooting := RevertActiveSessions(process, "");
    }
  }

  const A1 := Apex("a", 1, "key", "a1", false, false)
  const A2 := Apex("a", 2, "key", "a2", false, false)
  const B1 := Apex("b", 1, "key", "b1", false, false)
  const B2 := Apex("b", 2, "key", "b2", false, false)

  lemma ExampleDirectories(active: Dir, backup: Dir)
    requires active == map[FileName(A2) := Package(A2), FileName(B2) := Package(B2)]
    requires backup == map[FileName(A1) := Package(A1), FileName(B1) := Package(B1)]
    ensures Backupable(active) && NamedById(backup) && |backup| == |active| == 2 && FileName(A1) != FileName(B1)
  {
    hide FileName, Backupable, NamedById;
    if FileName(A1) == FileName(B1) {
      FileNameDeterminesPackage(A1, B1);
    }
    if FileName(A2) == FileName(B2) {
      FileNameDeterminesPackage(A2, B2);
    }
    TwoPackages(A2, B2, active);
    TwoPackages(A1, B1, backup);
  }

  lemma OnePackage(a: Apex, dir: Dir)
    requires dir == map[FileName(a) := Package(a)]
    ensures Backupable(dir) && IsBackup(dir, dir) && |dir| == |ApexFiles(dir)| == 1
  {
    hide FileName, IsBackup;
    FileNameIsApexFile(a);
    assert ApexFiles(dir) == dir.Keys == {FileName(a)};
    CompleteIffSamePackages(dir, dir);
  }

  lemma TwoPackages(a: Apex, b: Apex, dir: Dir)
    requires FileName(a) != FileName(b) && dir == map[FileName(a) := Package(a), FileName(b) := Package(b)]
    ensures Backupable(dir) && NamedById(dir) && |dir| == 2
  {
    hide FileName, IsApexFile;
    assert dir.Keys == {FileName(a), FileName(b)};
    assert |dir| == |dir.Keys|;
  }

  lemma OneOfTwo(dir: Dir, m: string, f: Inode, n: string, g: Inode)
    requires SubDir(dir, map[m := f, n := g]) && |dir| == 1 && m != n
    ensures dir == map[m := f] || dir == map[n := g]
  {
    assert |dir.Keys| == |dir|;
    var k :| k in dir;
    assert |dir.Keys - {k}| == 0;
    assert dir.Keys == {k};
    assert dir == map[k := dir[k]];
  }

  /** `removed` files of a backup are gone, and those from `i` on are still there. */
  ghost predicate EmptiedSoFar(dir: Dir, now: Dir, files: seq<string>, i: nat, removed: nat)
    requires i <= |files|
  {
    && IsListing(files, dir.Keys) && |files| == |dir| && SubDir(now, dir) && |now| + removed == |dir|
    && forall j :: i <= j < |files| ==> files[j] in now
  }

  lemma NothingEmptied(dir: Dir, files: seq<string>)
    requires IsListing(files, dir.Keys) && |files| == |dir|
    ensures EmptiedSoFar(dir, dir, files, 0, 0)
  { }

  lemma OneMoreEmptied(dir: Dir, now: Dir, files: seq<string>, i: nat, removed: nat)
    requires i < |files| && EmptiedSoFar(dir, now, files, i, removed)
    ensures EmptiedSoFar(dir, now, files, i + 1, removed)
    ensures EmptiedSoFar(dir, now - {files[i]}, files, i + 1, removed + 1)
  {
    OneFileLess(now, files[i]);
  }

  lemma AllEmptied(dir: Dir, now: Dir, files: seq<string>, removed: nat)
    requires EmptiedSoFar(dir, now, files, |files|, removed)
    ensures SubDir(now, dir) && |now| + removed == |dir| && |files| == |dir|
  { }

  /** The first `i` files have been looked at: they open, and if no power was lost no obsolete one is left. */
  ghost predicate PrunedUpTo(dir: Dir, cut: Dir, files: seq<string>, i: nat, names: set<string>, keep: set<string>,
                             live: bool)
    requires i <= |files|
  {
    && PartlyPruned(dir, cut, names, keep) && IsListing(files, set n | n in dir && IsApexFile(n))
    && (forall j :: 0 <= j < i ==> files[j] in dir && dir[files[j]].Package?)
    && (live ==> forall j :: 0 <= j < i && files[j] in cut ==> !Obsolete(dir, files[j], names, keep))
  }

  lemma NothingPruned(dir: Dir, files: seq<string>, names: set<string>, keep: set<string>)
    requires IsListing(files, set n | n in dir && IsApexFile(n))
    ensures PrunedUpTo(dir, dir, files, 0, names, keep, true) && PrunedUpTo(dir, dir, files, 0, names, keep, false)
  {
    hide IsApexFile, Obsolete;
  }

  lemma UnreadableStops(dir: Dir, cut: Dir, files: seq<string>, i: nat, names: set<string>, keep: set<string>,
                        live: bool)
    requires i < |files| && PrunedUpTo(dir, cut, files, i, names, keep, live)
    ensures files[i] in dir && (dir[files[i]].Unreadable? ==> !AllReadable(dir))
    ensures PartlyPruned(dir, cut, names, keep)
  {
    hide IsApexFile, Obsolete, PartlyPruned;
    assert files[i] in (set n | n in dir && IsApexFile(n));
  }

  lemma OneMorePruned(dir: Dir, cut: Dir, after: Dir, files: seq<string>, i: nat, names: set<string>,
                      keep: set<string>, was: bool, live: bool)
    requires i < |files| && PrunedUpTo(dir, cut, files, i, names, keep, was) && (live ==> was)
    requires files[i] in dir && dir[files[i]].Package?
    requires after == cut ||
      (dir[files[i]].apex.name in names && files[i] !in keep && after == cut - {files[i]})
    requires live && dir[files[i]].apex.name in names && files[i] !in keep ==> files[i] !in after
    ensures PrunedUpTo(dir, after, files, i + 1, names, keep, live)
  {
    hide IsApexFile;
    assert files[i] in (set n | n in dir && IsApexFile(n));
  }

  lemma AllPruned(dir: Dir, cut: Dir, files: seq<string>, names: set<string>, keep: set<string>, live: bool)
    requires PrunedUpTo(dir, cut, files, |files|, names, keep, live)
    ensures PartlyPruned(dir, cut, names, keep) && AllReadable(dir)
    ensures live ==> cut == Prune(dir, names, keep)
  {
    hide IsApexFile;
    forall n | n in dir && IsApexFile(n) ensures dir[n].Package? {
      assert n in (set m | m in dir && IsApexFile(m));
      assert n in files;
    }
    if live {
      forall n ensures Get(cut, n) == Get(Prune(dir, names, keep), n) {
        if n in dir && IsApexFile(n) {
          assert n in (set m | m in dir && IsApexFile(m));
          assert n in files;
        }
      }
      SameMap(cut, Prune(dir, names, keep));
    }
  }

  predicate Readable(inputs: seq<Inode>) {
    forall i :: 0 <= i < |inputs| ==> inputs[i].Package?
  }

  function Opened(inputs: seq<Inode>): (xs: seq<Apex>)
    requires Readable(inputs)
    ensures |xs| == |inputs| && forall i :: 0 <= i < |xs| ==> xs[i] == inputs[i].apex
  {
    seq(|inputs|, i requires 0 <= i < |inputs| => inputs[i].apex)
  }

  /** A boot after a power loss: its budget, and whether activation will fail. */
  datatype Attempt = Attempt(budget: nat, activationFails: bool)

  /** The budgets of the first `i` boots were at most `cost`. */
  ghost predicate NoneSufficed(boots: seq<Attempt>, i: nat, cost: nat) {
    forall j :: 0 <= j < i <= |boots| ==> boots[j].budget <= cost
  }

  lemma NoneTried(boots: seq<Attempt>, cost: nat)
    ensures NoneSufficed(boots, 0, cost)
  { }

  lemma OneMoreTried(boots: seq<Attempt>, i: nat, cost: nat)
    requires i < |boots| && NoneSufficed(boots, i, cost) && boots[i].budget <= cost
    ensures NoneSufficed(boots, i + 1, cost)
  { }

  lemma NoneWasEnough(boots: seq<Attempt>, cost: nat)
    requires NoneSufficed(boots, |boots|, cost)
    ensures !SomeSuffices(boots, cost)
  { }

  ghost predicate SomeSuffices(boots: seq<Attempt>, cost: nat) {
    exists i :: 0 <= i < |boots| && boots[i].budget > cost
  }

  predicate IsDecompressedFile(n: string) {
    EndsWith(n, DECOMPRESSED_SUFFIX)
  }

  function DecompressedFiles(dir: Dir): (r: set<string>)
    ensures |r| <= |dir|
  {
    assert |dir| == |dir.Keys|;
    NotMore((set n | n in dir && IsDecompressedFile(n)), dir.Keys);
    set n | n in dir && IsDecompressedFile(n)
  }

  /** Nothing has changed but that APEX files on data that are not mounted may be gone. */
  ghost predicate OnlyUnmountedRemoved(d: Disk, e: Disk, mounted: MountedFiles) {
    && (e.active.Some? <==> d.active.Some?)
    && SubDir(Files(e.active), Files(d.active)) && SubDir(e.decompressed, d.decompressed)
    && (forall n :: n in Files(d.active) && (n in mounted.active || !IsApexFile(n)) ==> n in Files(e.active))
    && (forall n :: n in d.decompressed && (n in mounted.decompressed || !IsDecompressedFile(n)) ==>
          n in e.decompressed)
  }

  ghost predicate NoUnmountedLeft(d: Disk, mounted: MountedFiles) {
    && (forall n :: n in Files(d.active) && IsApexFile(n) ==> n in mounted.active)
    && (forall n :: n in d.decompressed && IsDecompressedFile(n) ==> n in mounted.decompressed)
  }

  lemma CleanupIgnoresSessions(d: Disk, e: Disk, f: Disk, mounted: MountedFiles)
    requires OnlyUnmountedRemoved(d, e, mounted) && f == e.(sessions := f.sessions)
    ensures OnlyUnmountedRemoved(d, f, mounted)
    ensures NoUnmountedLeft(e, mounted) ==> NoUnmountedLeft(f, mounted)
  { }

  /** Some finalized sessions are gone and the others are as before. */
  ghost predicate OnlyFinalizedDeleted(before: Sessions, after: Sessions) {
    && (forall id :: id in after ==> id in before && after[id] == before[id])
    && (forall id :: id in before && id !in after ==> before[id].IsFinalized())
  }

  /** The first `i` sessions have been looked at: only finalized ones are gone, and all of them if no power
      was lost. */
  ghost predicate CleanedSoFar(before: Sessions, now: Sessions, ids: seq<int>, i: nat, live: bool)
    requires i <= |ids|
  {
    && IsListing(ids, before.Keys) && OnlyFinalizedDeleted(before, now)
    && (forall j :: i <= j < |ids| ==> ids[j] in now)
    && (live ==> forall j :: 0 <= j < i && ids[j] in now ==> !before[ids[j]].IsFinalized())
  }

  lemma NothingCleaned(before: Sessions, ids: seq<int>)
    requires IsListing(ids, before.Keys)
    ensures CleanedSoFar(before, before, ids, 0, true) && CleanedSoFar(before, before, ids, 0, false)
  { }

  lemma NextToClean(before: Sessions, now: Sessions, ids: seq<int>, i: nat, live: bool)
    requires i < |ids| && CleanedSoFar(before, now, ids, i, live)
    ensures ids[i] in now && ids[i] in before && now[ids[i]] == before[ids[i]]
  {
    var id := ids[i];
    assert id in now && id in before;
    assert OnlyFinalizedDeleted(before, now);
    assert now[id] == before[id];
  }

  lemma OneMoreCleaned(before: Sessions, now: Sessions, after: Sessions, ids: seq<int>, i: nat, was: bool, live: bool)
    requires i < |ids| && CleanedSoFar(before, now, ids, i, was) && (live ==> was)
    requires after == now || (ids[i] in before && before[ids[i]].IsFinalized() && after == now - {ids[i]})
    requires live && ids[i] in before && before[ids[i]].IsFinalized() ==> ids[i] !in after
    ensures CleanedSoFar(before, after, ids, i + 1, live)
  { }

  lemma AllCleaned(before: Sessions, now: Sessions, ids: seq<int>, live: bool)
    requires CleanedSoFar(before, now, ids, |ids|, live)
    ensures OnlyFinalizedDeleted(before, now)
    ensures live ==> forall id :: id in now ==> !now[id].IsFinalized()
  { }

  /** Session `id` in a new state, if it is in one of the states `from`. */
  function Moved(ss: Sessions, id: int, from: set<State>, to: State): Sessions {
    if id in ss && ss[id].state in from then ss[id := ss[id].(state := to)] else ss
  }

  /** ApexSessionManager::GetSessionsInState. */
  function SessionsInState(ss: Sessions, state: State): set<int> {
    set id | id in ss && ss[id].state == state
  }

  lemma AtRestIsNonePending(ss: Sessions)
    ensures AtRest(ss) <==> SessionsInState(ss, REVERT_IN_PROGRESS) == {}
  {
    if SessionsInState(ss, REVERT_IN_PROGRESS) == {} {
      forall id | id in ss ensures ss[id].state != REVERT_IN_PROGRESS {
        assert id !in SessionsInState(ss, REVERT_IN_PROGRESS);
      }
    } else if AtRest(ss) {
      assert forall id :: id !in SessionsInState(ss, REVERT_IN_PROGRESS);
    }
  }

  /** The directories to scan for a session: its own, or those of its children. */
  function DirsOf(id: int, s: Session): seq<int> {
    if s.children == [] then [id] else s.children
  }

  ghost function OnlyApex(dir: Dir): Inode
    requires |ApexFiles(dir)| == 1
  {
    var n :| n in ApexFiles(dir);
    dir[n]
  }

  function Failed(s: Session, message: string): Session {
    s.(state := ACTIVATION_FAILED, errorMessage := message)
  }

  /** Session `s` as an activation attempt leaves it. */
  predicate ActivationOutcome(s: Session, after: Session) {
    && after.state in {ACTIVATED, ACTIVATION_FAILED}
    && after == s.(state := after.state, errorMessage := after.errorMessage)
  }

  /** The same but for the sessions; an empty active directory may be missing. */
  predicate SameData(d: Disk, e: Disk) {
    && Files(d.active) == Files(e.active) && d.backup == e.backup && d.decompressed == e.decompressed
    && d.trees == e.trees && d.newTrees == e.newTrees
  }

  lemma InterruptedKeeps(d: Disk, e: Disk, plan: Plan, done: set<int>)
    requires Interrupted(d, e, plan, done)
    ensures e.backup == d.backup && e.decompressed == d.decompressed
  { }

  lemma InterruptedIgnoresSessions(d: Disk, e: Disk, f: Disk, plan: Plan, done: set<int>)
    requires Interrupted(d, e, plan, done) && f == e.(sessions := f.sessions)
    ensures Interrupted(d, f, plan, done)
  {
    assert forall id :: TreesAt(f, id) == TreesAt(e, id);
  }

  function Data(d: Disk): Disk {
    d.(sessions := map[])
  }

  lemma CutIgnoresSessions(d: Disk, e: Disk, xs: seq<Apex>)
    requires StageCut(d, e, xs)
    ensures StageCut(Data(d), Data(e), xs)
  {
    TreesIgnoreSessions(d, e, Ids(xs));
    hide Ids;
  }

  lemma TreesIgnoreSessions(d: Disk, e: Disk, ids: set<string>)
    requires TreesCut(d, e, ids)
    ensures TreesCut(Data(d), Data(e), ids)
  {
    assert forall id :: TreesAt(Data(d), id) == TreesAt(d, id) && TreesAt(Data(e), id) == TreesAt(e, id);
  }

  lemma CutKeys(d: Disk, e: Disk, xs: seq<Apex>)
    requires StageCut(d, e, xs)
    ensures Files(e.active).Keys <= Files(d.active).Keys + Dests(xs)
  { }

  /** The directories of some sessions, counted. */
  ghost function DirCount(ss: Sessions, ids: set<int>): nat {
    if ids == {} then 0
    else
      var id := Pick(ids);
      DirsIn(ss, id) + DirCount(ss, ids - {id})
  }

  function DirsIn(ss: Sessions, id: int): nat {
    if id in ss then |DirsOf(id, ss[id])| else 0
  }

  lemma {:induction false} DirCountWithout(ss: Sessions, ids: set<int>, id: int)
    requires id in ids
    ensures DirCount(ss, ids) == DirsIn(ss, id) + DirCount(ss, ids - {id})
    decreases ids
  {
    hide DirsIn;
    var first := Pick(ids);
    if first != id {
      DirCountWithout(ss, ids - {first}, id);
      DirCountWithout(ss, ids - {id}, first);
      assert ids - {first} - {id} == ids - {id} - {first};
    }
  }

  lemma {:induction false} FewerDirs(before: Sessions, after: Sessions, ids: set<int>, more: set<int>)
    requires ids <= more
    requires forall id :: id in ids ==> DirsIn(after, id) <= DirsIn(before, id)
    ensures DirCount(after, ids) <= DirCount(before, more)
    decreases more
  {
    hide DirsIn;
    if ids != {} {
      var id := Pick(ids);
      DirCountWithout(after, ids, id);
      DirCountWithout(before, more, id);
      FewerDirs(before, after, ids - {id}, more - {id});
    }
  }

  function Inputs(batches: seq<seq<Inode>>): nat {
    if batches == [] then 0 else |batches[0]| + Inputs(batches[1..])
  }

  /** The most writes of stagings one after the other, in a directory of so many files. */
  function StagingsCost(files: nat, batches: seq<seq<Inode>>): nat
    decreases batches
  {
    if batches == [] then 0
    else
      var n := |batches[0]|;
      1 + 4 * n + files + StagingsCost(files + n, batches[1..])
  }

  /** The most writes of a backup, stagings, and a revert. */
  function RoundTripCost(d: Disk, batches: seq<seq<Inode>>): nat {
    BackupBound(d.backup, d.active) + StagingsCost(|Files(d.active)|, batches) + RevertCost(d) + Inputs(batches)
  }

  /** What the first `i` stagings have cost: `n` is the number of their inputs. */
  predicate StagingsPaid(batches: seq<seq<Inode>>, i: nat, files: nat, n: nat, before: nat, after: nat)
    requires i <= |batches|
  {
    && n + Inputs(batches[i..]) == Inputs(batches)
    && before + StagingsCost(n + files, batches[i..]) <= after + StagingsCost(files, batches)
  }

  lemma NoStagings(batches: seq<seq<Inode>>, files: nat, power: nat)
    ensures StagingsPaid(batches, 0, files, 0, power, power)
  {
    assert batches[0..] == batches;
  }

  lemma OneMoreStaging(batches: seq<seq<Inode>>, i: nat, files: nat, n: nat, before: nat, had: nat, after: nat)
    requires i < |batches| && StagingsPaid(batches, i, files, n, before, had)
    requires had <= after + 1 + 4 * |batches[i]| + n + files
    ensures StagingsPaid(batches, i + 1, files, n + |batches[i]|, before, after)
  {
    assert batches[i..][0] == batches[i] && batches[i..][1..] == batches[i + 1..];
  }

  lemma AllStagings(batches: seq<seq<Inode>>, files: nat, n: nat, before: nat, after: nat)
    requires StagingsPaid(batches, |batches|, files, n, before, after)
    ensures n == Inputs(batches) && before <= after + StagingsCost(files, batches)
  { }

  lemma BackupIsPart(d: Disk, batches: seq<seq<Inode>>)
    ensures BackupBound(d.backup, d.active) <= RoundTripCost(d, batches)
  {
    hide BackupBound, StagingsCost, RevertCost;
  }

  lemma RoundTripIsEnough(d: Disk, e: Disk, batches: seq<seq<Inode>>, power: nat, left: nat, rest: nat)
    requires e.sessions == d.sessions && |Files(e.active)| <= |Files(d.active)| + Inputs(batches)
    requires power <= left + BackupBound(d.backup, d.active)
    requires left <= rest + StagingsCost(|Files(d.active)|, batches)
    ensures power > RoundTripCost(d, batches) ==> rest > RevertCost(e)
  {
    hide Revertible, BackupBound, StagingsCost;
  }

  lemma StagingIsBounded(d: Disk, e: Disk, xs: seq<Apex>, files: nat)
    requires StageCut(d, e, xs) && |Files(d.active)| <= files
    ensures |Files(e.active)| <= files + |xs| && StageCost(Files(d.active), xs) <= 1 + 4 * |xs| + files
  {
    var dir := Files(d.active);
    LinkedFew(dir, xs);
    LinkedAt(dir, xs);
    CutKeys(d, e, xs);
    hide StageCut, Linked;
    NotMore(Files(e.active).Keys, Linked(dir, xs).Keys);
    assert |Files(e.active)| == |Files(e.active).Keys| && |Linked(dir, xs)| == |Linked(dir, xs).Keys|;
  }

  /** The first `n` files have been linked, if the backup was empty at the start. */
  ghost predicate LinkedSoFar(dir: Dir, files: seq<string>, before: Option<Dir>, now: Option<Dir>, n: nat) {
    && n <= |files| && IsListing(files, ApexFiles(dir))
    && (now == before || (now.Some? && PartialBackup(dir, now.value)))
    && (before == Some(map[]) ==>
          now.Some? && BackupOf(dir, Elements(files[..n]), now.value) && |now.value| <= n)
  }

  lemma NothingLinked(dir: Dir, files: seq<string>, before: Option<Dir>)
    requires IsListing(files, ApexFiles(dir))
    ensures LinkedSoFar(dir, files, before, before, 0)
  {
    NothingBackedUp(dir);
    assert Elements(files[..0]) == {};
  }

  /** The file at `i` in turn: it is linked unless it cannot be opened or its name is taken. */
  lemma {:induction false} LinkTurn(dir: Dir, files: seq<string>, before: Option<Dir>, now: Option<Dir>, n: nat, i: nat)
    requires LinkedSoFar(dir, files, before, now, n) && n <= i < |files|
    ensures files[i] in dir && (dir[files[i]].Unreadable? ==> !Backupable(dir))
    ensures before == Some(map[]) && dir[files[i]].Package? && FileName(dir[files[i]].apex) in now.value ==>
      !Backupable(dir)
    ensures before == Some(map[]) && dir[files[i]].Package? && FileName(dir[files[i]].apex) !in now.value && n == i ==>
      LinkedSoFar(dir, files, before, Some(now.value[FileName(dir[files[i]].apex) := dir[files[i]]]), n + 1)
  {
    hide IsApexFile, FileName, Backupable, PartialBackup, BackupOf;
    assert files[i] in ApexFiles(dir) && files[i] !in Elements(files[..n]);
    if dir[files[i]].Unreadable? {
      NotBackupable(dir, files[i]);
    } else if before == Some(map[]) {
      var dest := FileName(dir[files[i]].apex);
      BackupTurn(dir, Elements(files[..n]), files[i], now.value);
      if dest !in now.value && n == i {
        var more := now.value[dest := dir[files[i]]];
        assert Elements(files[..n + 1]) == Elements(files[..n]) + {files[i]};
        BackupOfIsPartial(dir, Elements(files[..n + 1]), more);
        OneFileMore(now.value, dest, dir[files[i]]);
      }
    }
  }

  lemma {:induction false} AllLinked(dir: Dir, files: seq<string>, before: Option<Dir>, now: Option<Dir>, n: nat)
    requires LinkedSoFar(dir, files, before, now, n)
    ensures now == before || (now.Some? && PartialBackup(dir, now.value))
    ensures before == Some(map[]) ==>
      && now.Some? && PartialBackup(dir, now.value) && |now.value| <= n <= |files|
      && (n == |files| ==> Backupable(dir) && IsBackup(dir, now.value))
      && (n < |files| && Backupable(dir) ==> !IsBackup(dir, now.value))
  {
    hide IsApexFile, FileName, Backupable, PartialBackup, BackupOf, IsBackup;
    if before == Some(map[]) {
      BackupOfIsPartial(dir, Elements(files[..n]), now.value);
      assert files[..|files|] == files;
      if n == |files| {
        assert Elements(files[..n]) == ApexFiles(dir);
      } else if Backupable(dir) {
        assert files[n] in ApexFiles(dir) && files[n] !in Elements(files[..n]);
        OneFileMissing(dir, Elements(files[..n]), now.value, files[n]);
      }
    }
  }

  lemma OneFileMore(dir: Dir, n: string, f: Inode)
    ensures |dir[n := f]| <= |dir| + 1
  {
    assert dir[n := f].Keys == dir.Keys + {n};
    assert |dir[n := f].Keys| == |dir[n := f]| && |dir.Keys| == |dir|;
  }

  function Elements<T>(xs: seq<T>): set<T> {
    set x | x in xs
  }

  /** So many turns, each with so many writes besides three for each directory. */
  function TurnsCost(turns: nat, each: nat, dirs: nat): nat {
    if turns == 0 then 3 * dirs else each + TurnsCost(turns - 1, each, dirs)
  }

  lemma {:induction false} OneMoreTurn(turns: nat, each: nat, dirs: nat, more: nat)
    ensures TurnsCost(turns + 1, each, more + dirs) == TurnsCost(turns, each, dirs) + each + 3 * more
  {
    if turns > 0 {
      OneMoreTurn(turns - 1, each, dirs, more);
    }
  }

  lemma {:induction false} FewerTurnsCostLess(a: nat, b: nat, c: nat, d: nat, e: nat, f: nat)
    requires a <= b && c <= d && e <= f
    ensures TurnsCost(a, c, e) <= TurnsCost(b, d, f)
  {
    if b > 0 {
      FewerTurnsCostLess(if a == 0 then 0 else a - 1, b - 1, c, d, e, f);
    }
  }

  lemma StageCutFrame(d: Disk, e: Disk, xs: seq<Apex>)
    requires StageCut(d, e, xs)
    ensures e.backup == d.backup && e.sessions == d.sessions && (d.active.Some? ==> e.active.Some?)
  { }

  lemma ReadableInputs(dir: Dir, xs: seq<Apex>)
    ensures AllReadable(dir) ==> OthersReadable(dir, xs)
  { }

  /** Sessions of `scope` may have been tried; the others are as before. */
  ghost predicate Scanned(before: Sessions, after: Sessions, scope: set<int>)
    requires scope <= before.Keys
  {
    forall id :: Get(after, id) == Get(before, id) ||
      (id in scope && id in after && ActivationOutcome(before[id], after[id]))
  }

  lemma MarksAreLegal(d: Disk, process: string, message: string)
    ensures forall id :: id in Revertible(d.sessions) ==>
      Edge(StateOf(d, id), Some(MarkedAll(d.sessions, process, message, REVERT_IN_PROGRESS)[id].state))
  { }

  lemma EndsAreLegal(ss: Sessions, d: Disk, process: string, message: string, state: State)
    requires d.sessions == MarkedAll(ss, process, message, REVERT_IN_PROGRESS) && state in {REVERTED, REVERT_FAILED}
    ensures forall id :: id in Revertible(ss) ==>
      Edge(StateOf(d, id), Some(MarkedAll(ss, process, message, state)[id].state))
  { }

  lemma RevertMakesNoFiles(d: Disk, e: Disk, checkpoints: bool)
    requires RevertLeaves(d, e, checkpoints)
    ensures Files(e.active).Keys <= Files(d.active).Keys + Files(d.backup).Keys
    ensures Files(e.backup).Keys <= Files(d.backup).Keys && e.sessions.Keys == d.sessions.Keys
    ensures forall id :: id in d.sessions ==>
      e.sessions[id] == d.sessions[id] || e.sessions[id].state in {REVERT_IN_PROGRESS, REVERTED, REVERT_FAILED}
  { }

  lemma RevertibleAreFew(ss: Sessions)
    ensures |Revertible(ss)| <= |ss|
  {
    KeysCount(ss);
    NotMore(Revertible(ss), ss.Keys);
  }

  lemma NothingScanned(ss: Sessions, scope: set<int>)
    requires scope <= ss.Keys
    ensures Scanned(ss, ss, scope)
  { }

  lemma ScannedOneMore(ss: Sessions, before: Sessions, after: Sessions, scope: set<int>, id: int)
    requires scope <= ss.Keys && Scanned(ss, before, scope) && id in scope && Get(before, id) == Some(ss[id])
    requires after == before ||
      (id in after && ActivationOutcome(ss[id], after[id]) && after == before[id := after[id]])
    ensures Scanned(ss, after, scope)
  { }

  /** Activating sessions neither begins nor ends a revert. */
  lemma {:induction false} ScanLeavesRevert(d: Disk, e: Disk, scope: set<int>)
    requires scope <= d.sessions.Keys && Scanned(d.sessions, e.sessions, scope)
    requires forall id :: id in scope ==> d.sessions[id].state in {STAGED, ACTIVATED}
    requires e.backup == d.backup && (d.active.Some? ==> e.active.Some?)
    requires scope == {} ==> e == d
    ensures AtRest(d.sessions) ==> AtRest(e.sessions)
    ensures Reverting(d) ==> Reverting(e) && Target(e) == Target(d)
  {
    if AtRest(d.sessions) {
      forall id | id in e.sessions ensures e.sessions[id].state != REVERT_IN_PROGRESS {
        assert Get(e.sessions, id) == Get(d.sessions, id) || id in scope;
      }
    }
    if Reverting(d) {
      if d.backup.Some? {
        var id :| id in d.sessions && d.sessions[id].state == REVERT_IN_PROGRESS;
        assert Get(e.sessions, id) == Get(d.sessions, id) && id in e.sessions;
      } else {
        assert forall id :: id !in scope;
        assert scope == {};
      }
    }
  }

  lemma RevertStaysPending(d: Disk, e: Disk, scope: set<int>)
    requires scope <= d.sessions.Keys && Scanned(d.sessions, e.sessions, scope)
    requires forall id :: id in scope ==> d.sessions[id].state in {STAGED, ACTIVATED}
    requires !AtRest(d.sessions)
    ensures !AtRest(e.sessions)
  {
    var id :| id in d.sessions && d.sessions[id].state == REVERT_IN_PROGRESS;
    assert Get(e.sessions, id) == Get(d.sessions, id) && id in e.sessions;
  }

  /** Resuming a revert whose backup is gone can only fail. */
  lemma {:induction false} ResumeOnlyFails(d: Disk, e: Disk)
    requires d.backup.None?
    requires AtRest(d.sessions) ==> e == d
    requires !AtRest(d.sessions) ==> RevertLeaves(d, e, false)
    ensures e.backup.None? && FailingOnly(d.sessions, e.sessions)
  { }

  lemma {:induction false} ResumeGoesOn(d: Disk, e: Disk, live: bool)
    requires Reverting(d)
    requires AtRest(d.sessions) ==> e == d
    requires !AtRest(d.sessions) ==> RevertLeaves(d, e, false)
    requires live && !AtRest(d.sessions) ==> e == Reverted(d, false, "", "")
    ensures Reverting(e) && Target(e) == Target(d)
    ensures live ==> RevertOver(e, Target(d))
  {
    hide RevertLeaves, Reverted;
    if !AtRest(d.sessions) {
      CutRevertGoesOn(d, e);
      RevertedIsOver(d, "", "");
    }
  }

  lemma RevertedSwaps(d: Disk, process: string, message: string)
    ensures d.backup.Some? && d.active.Some? ==>
      Reverted(d, false, process, message).active == d.backup && Reverted(d, false, process, message).backup.None?
  { }
}
