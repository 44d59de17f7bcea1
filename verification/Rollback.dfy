/** Backing up, restoring and reverting the active directory, as functions and relations on disks
    (apexd/apexd.cpp:921-1021, 2334-2398). */
module Rollback {
  import opened Basics
  import opened Packages
  import opened Storage

  predicate SubDir(a: Dir, b: Dir) {
    forall n :: n in a ==> n in b && a[n] == b[n]
  }

  function ApexFiles(dir: Dir): set<string> {
    set n | n in dir && IsApexFile(n)
  }

  /** Every APEX file can be opened and no two of them share a package id. */
  predicate Backupable(dir: Dir) {
    && AllReadable(dir)
    && forall m, n :: m in ApexFiles(dir) && n in ApexFiles(dir) && m != n ==>
         FileName(dir[m].apex) != FileName(dir[n].apex)
  }

  /** Some APEX file of `dir` has these contents. */
  ghost predicate HoldsApex(dir: Dir, f: Inode) {
    exists n :: n in ApexFiles(dir) && dir[n] == f
  }

  /** `b` holds APEX files of `dir` only, each under the name of its package id. */
  ghost predicate PartialBackup(dir: Dir, b: Dir) {
    forall k :: k in b ==> b[k].Package? && FileName(b[k].apex) == k && HoldsApex(dir, b[k])
  }

  /** `b` holds exactly the APEX files of `dir`, each under the name of its package id. */
  ghost predicate IsBackup(dir: Dir, b: Dir) {
    && PartialBackup(dir, b)
    && forall n :: n in ApexFiles(dir) ==> dir[n].Package? && Get(b, FileName(dir[n].apex)) == Some(dir[n])
  }

  /** The packages found in the APEX files of a directory. */
  function PackagesIn(dir: Dir): set<Apex> {
    set n | n in ApexFiles(dir) && dir[n].Package? :: dir[n].apex
  }

  /** A backup is determined by the directory, and holds the same packages. */
  lemma {:induction false} BackupDetermined(dir: Dir, b: Dir, c: Dir)
    requires IsBackup(dir, b) && IsBackup(dir, c)
    ensures b == c
    ensures PackagesIn(b) == PackagesIn(dir) && |ApexFiles(b)| == |b|
  {
    hide IsApexFile;
    forall k ensures Get(b, k) == Get(c, k) {
      if k in b {
        BackupEntry(dir, b, c, k);
      } else if k in c {
        BackupEntry(dir, c, b, k);
      }
    }
    SameMap(b, c);
    forall k | k in b ensures IsApexFile(k) {
      FileNameIsApexFile(b[k].apex);
    }
    assert ApexFiles(b) == b.Keys;
    forall a | a in PackagesIn(dir) ensures a in PackagesIn(b) {
      var n :| n in ApexFiles(dir) && dir[n] == Package(a);
      assert Get(b, FileName(a)) == Some(dir[n]);
      assert FileName(a) in ApexFiles(b);
    }
    forall a | a in PackagesIn(b) ensures a in PackagesIn(dir) {
      var k :| k in ApexFiles(b) && b[k] == Package(a);
      assert HoldsApex(dir, b[k]);
    }
  }

  // ---------- Backups that a power loss cuts ----------

  function Left(power: nat, cost: nat): nat {
    if power <= cost then 0 else power - cost
  }

  /** The writes a backup makes before it links the first file: it creates the directory or empties it. */
  function WritesToEmpty(before: Option<Dir>): nat {
    if before.None? then 1 else |before.value|
  }

  /** The writes of a whole backup of `dir`. */
  function BackupCost(before: Option<Dir>, dir: Dir): nat {
    WritesToEmpty(before) + |ApexFiles(dir)|
  }

  /** The most writes of a backup that may fail, after which what it has linked is deleted again. */
  function BackupBound(before: Option<Dir>, active: Option<Dir>): nat {
    if active.None? then 1 else BackupCost(before, active.value) + |ApexFiles(active.value)|
  }

  /** What `power` writes of a backup of `dir` leave: what is not yet deleted of the backup before, or a
      backup that is complete if and only if all writes were made. */
  ghost predicate BackupAt(before: Option<Dir>, dir: Dir, power: nat, after: Option<Dir>) {
    if power < WritesToEmpty(before) then
      && (after.Some? <==> before.Some?) && SubDir(Files(after), Files(before))
      && |Files(after)| == |Files(before)| - power
    else
      && after.Some? && PartialBackup(dir, after.value)
      && (IsBackup(dir, after.value) <==> power >= BackupCost(before, dir))
  }

  /** Every file that a backup of `dir` needs is in `before` already. */
  ghost predicate BackedUpBefore(dir: Dir, before: Option<Dir>) {
    forall n :: n in ApexFiles(dir) ==> dir[n].Package? && Get(Files(before), FileName(dir[n].apex)) == Some(dir[n])
  }

  /** The backup is complete exactly if the power covers all its writes. The one exception is that what is
      left of the backup before happens to be the backup; it needs all the files to be there already. */
  lemma {:induction false} CompleteIffPowered(before: Option<Dir>, dir: Dir, power: nat, after: Option<Dir>)
    requires BackupAt(before, dir, power, after)
    ensures power >= BackupCost(before, dir) ==> after.Some? && IsBackup(dir, after.value)
    ensures power < BackupCost(before, dir) && after.Some? && IsBackup(dir, after.value) ==>
      power < WritesToEmpty(before) && BackedUpBefore(dir, before)
  {
    hide IsApexFile, FileName, PartialBackup;
    if power < WritesToEmpty(before) && after.Some? && IsBackup(dir, after.value) {
      forall n | n in ApexFiles(dir)
        ensures dir[n].Package? && Get(Files(before), FileName(dir[n].apex)) == Some(dir[n]) {
        assert Get(after.value, FileName(dir[n].apex)) == Some(dir[n]);
      }
    }
  }

  /** After a revert to a backup that was cut, the packages come all from the directory that was being backed
      up or all from the backup before it; a mixture is impossible. */
  lemma {:induction false} RevertToCutBackup(d: Disk, before: Option<Dir>, dir: Dir, process: string, message: string)
    requires BackupCut(before, dir, d.backup) && d.backup.Some? && d.active.Some?
    ensures var after := Files(Reverted(d, false, process, message).active);
      AllFromOne(after, dir, Files(before))
  {
    hide IsApexFile, MarkedAll;
    var b := d.backup.value;
    if PartialBackup(dir, b) {
      forall a | a in PackagesIn(b) ensures a in PackagesIn(dir) {
        var k :| k in ApexFiles(b) && b[k] == Package(a);
        assert HoldsApex(dir, b[k]);
      }
    } else {
      forall a | a in PackagesIn(b) ensures a in PackagesIn(Files(before)) {
        var k :| k in ApexFiles(b) && b[k] == Package(a);
        assert k in ApexFiles(Files(before));
      }
    }
  }

  ghost predicate AllFromOne(after: Dir, a: Dir, b: Dir) {
    PackagesIn(after) <= PackagesIn(a) || PackagesIn(after) <= PackagesIn(b)
  }

  /** The revert of a disk on which a backup was cut. */
  lemma {:induction false} CutBackupReverted(before: Option<Dir>, dir: Dir, power: nat, d: Disk, process: string,
                                             message: string)
    requires Backupable(dir) && NamedById(Files(before)) && d.active == Some(dir)
    requires BackupCut(before, dir, d.backup) && BackupAt(before, dir, power, d.backup)
    ensures var e := Reverted(d, false, process, message);
      && e.active.Some?
      && (before.None? && power == 0 ==> e.active == d.active)
      && (before.Some? || power > 0 ==>
            && AllFromOne(e.active.value, dir, Files(before))
            && (power >= BackupCost(before, dir) ==> PackagesIn(e.active.value) == PackagesIn(dir))
            && (power < BackupCost(before, dir) && PackagesIn(e.active.value) == PackagesIn(dir) ==>
                  BackedUpBefore(dir, before)))
      && (before.Some? && power < |before.value| ==>
            SubDir(e.active.value, before.value) && |e.active.value| == |before.value| - power)
  {
    hide Backupable, PackagesIn, IsBackup, PartialBackup, NamedById,
        MarkedAll, ApexFiles, BackedUpBefore, BackupCut, AllFromOne;
    if d.backup.Some? {
      RevertToCutBackup(d, before, dir, process, message);
      CompleteIffPowered(before, dir, power, d.backup);
      BackupKeepsNames(before, dir, d.backup);
      CompleteIffSamePackages(dir, d.backup.value);
    }
  }

  /** Every file is an APEX under the name of its package id: what holds of backups. */
  ghost predicate NamedById(dir: Dir) {
    forall k :: k in dir ==> dir[k].Package? && FileName(dir[k].apex) == k
  }

  lemma {:induction false} BackupKeepsNames(before: Option<Dir>, dir: Dir, after: Option<Dir>)
    requires NamedById(Files(before)) && BackupCut(before, dir, after)
    ensures NamedById(Files(after))
  { }

  /** A backup is complete if it holds all the packages of the directory and no others. */
  lemma {:induction false} CompleteIffSamePackages(dir: Dir, b: Dir)
    requires Backupable(dir) && NamedById(b)
    ensures IsBackup(dir, b) <==> PackagesIn(b) == PackagesIn(dir)
  {
    hide IsApexFile, FileName;
    if IsBackup(dir, b) {
      BackupDetermined(dir, b, b);
    }
    if PackagesIn(b) == PackagesIn(dir) {
      forall k | k in b ensures HoldsApex(dir, b[k]) {
        FileNameIsApexFile(b[k].apex);
        assert k in ApexFiles(b);
        assert b[k].apex in PackagesIn(b);
        var n :| n in ApexFiles(dir) && dir[n] == Package(b[k].apex);
      }
      forall n | n in ApexFiles(dir) ensures Get(b, FileName(dir[n].apex)) == Some(dir[n]) {
        assert dir[n].apex in PackagesIn(dir);
        var k :| k in ApexFiles(b) && b[k] == Package(dir[n].apex);
      }
    }
  }

  lemma FileNameIsApexFile(a: Apex)
    ensures IsApexFile(FileName(a))
  { }

  lemma BackupEntry(dir: Dir, b: Dir, c: Dir, k: string)
    requires IsBackup(dir, b) && IsBackup(dir, c) && k in b
    ensures Get(c, k) == Get(b, k)
  {
    hide IsApexFile, FileName;
    assert HoldsApex(dir, b[k]);
    var n :| n in ApexFiles(dir) && dir[n] == b[k];
  }

  /** What a power loss while backing up `dir` may leave of the backup directory. */
  ghost predicate BackupCut(before: Option<Dir>, dir: Dir, after: Option<Dir>) {
    || after == before
    || (after.Some? && (SubDir(after.value, Files(before)) || PartialBackup(dir, after.value)))
  }

  /** What a power loss while restoring may leave. */
  ghost predicate RestoreCut(d: Disk, e: Disk) {
    || (e == d.(active := e.active) && e.active.Some? && SubDir(e.active.value, Files(d.active)))
    || e == d.(active := d.backup, backup := None)
  }

  /** The sessions a revert takes. */
  function Revertible(ss: Sessions): set<int> {
    set id | id in ss && ss[id].IsRevertible()
  }

  /** The most writes that a revert makes: two commits for each session, and one for each active file and
      the rename. */
  function RevertCost(d: Disk): nat {
    if Revertible(d.sessions) == {} then 0 else 2 * |Revertible(d.sessions)| + |Files(d.active)| + 1
  }

  /** A session as a revert marks it. */
  function Marked(s: Session, process: string, message: string, state: State): Session {
    s.(state := state,
       crashingProcess := if process != "" then process else s.crashingProcess,
       errorMessage := if message != "" then message else s.errorMessage)
  }

  function MarkedAll(ss: Sessions, process: string, message: string, state: State): (r: Sessions)
    ensures r.Keys == ss.Keys
    ensures forall id :: id in Revertible(ss) ==> r[id].state == state
  {
    map id | id in ss :: if ss[id].IsRevertible() then Marked(ss[id], process, message, state) else ss[id]
  }

  /** The disk after a complete revert, as apexd/apexd.cpp:2324-2327 describes it: the active
      directory is what the backup held and no session is left to activate. Without a backup or an
      active directory, the sessions end up REVERT_FAILED and nothing else changes. */
  function Reverted(d: Disk, checkpoints: bool, process: string, message: string): Disk {
    if checkpoints then d.(sessions := MarkedAll(d.sessions, process, message, REVERTED))
    else if d.backup.Some? && d.active.Some? then
      d.(active := d.backup, backup := None, sessions := MarkedAll(d.sessions, process, message, REVERTED))
    else d.(sessions := MarkedAll(d.sessions, process, message, REVERT_FAILED))
  }

  /** Sessions that a cut revert may leave: each as before, or in one of the states `states` if the
      revert took it. */
  ghost predicate MarkedSome(before: Sessions, after: Sessions, states: set<State>) {
    && after.Keys == before.Keys
    && forall id :: id in before ==>
         after[id] == before[id] || (before[id].IsRevertible() && after[id].state in states)
  }

  ghost predicate AllMarked(before: Sessions, after: Sessions, states: set<State>) {
    MarkedSome(before, after, states) &&
    forall id :: id in before && before[id].IsRevertible() ==> after[id].state in states
  }

  /** What a power loss during a revert with both directories present may leave: only marks; all
      marked and some active files gone; or restored, with some sessions already REVERTED. */
  ghost predicate RevertCut(d: Disk, e: Disk) {
    || (e == d.(sessions := e.sessions) && MarkedSome(d.sessions, e.sessions, {REVERT_IN_PROGRESS}))
    || (e == d.(sessions := e.sessions, active := e.active) && e.active.Some? &&
        SubDir(e.active.value, Files(d.active)) && AllMarked(d.sessions, e.sessions, {REVERT_IN_PROGRESS}))
    || (e == d.(sessions := e.sessions, active := d.backup, backup := None) &&
        AllMarked(d.sessions, e.sessions, {REVERT_IN_PROGRESS, REVERTED}))
  }

  /** `b` is the backup of the files in `done`. */
  ghost predicate BackupOf(dir: Dir, done: set<string>, b: Dir) {
    && done <= ApexFiles(dir)
    && (forall n :: n in done ==> dir[n].Package? && Get(b, FileName(dir[n].apex)) == Some(dir[n]))
    && (forall k :: k in b ==> b[k].Package? && FileName(b[k].apex) == k && exists n :: n in done && dir[n] == b[k])
    && (forall m, n :: m in done && n in done && m != n ==> FileName(dir[m].apex) != FileName(dir[n].apex))
  }

  lemma {:induction false} BackupTurn(dir: Dir, done: set<string>, file: string, b: Dir)
    requires BackupOf(dir, done, b) && file in ApexFiles(dir) && file !in done && dir[file].Package?
    ensures FileName(dir[file].apex) in b ==> !Backupable(dir)
    ensures FileName(dir[file].apex) !in b ==>
      BackupOf(dir, done + {file}, b[FileName(dir[file].apex) := dir[file]])
  {
    hide IsApexFile, FileName;
    var dest := FileName(dir[file].apex);
    if dest in b {
      var n :| n in done && dir[n] == b[dest];
      assert n != file && n in ApexFiles(dir);
    } else {
      var c := b[dest := dir[file]];
      forall k | k in c
        ensures c[k].Package? && FileName(c[k].apex) == k && exists n :: n in done + {file} && dir[n] == c[k]
      {
        if k in b {
          var n :| n in done && dir[n] == b[k];
          assert n in done + {file};
        } else {
          assert file in done + {file};
        }
      }
      forall n | n in done ensures FileName(dir[n].apex) != dest {
        assert Get(b, FileName(dir[n].apex)) == Some(dir[n]);
      }
    }
  }

  lemma {:induction false} BackupOfIsPartial(dir: Dir, done: set<string>, b: Dir)
    requires BackupOf(dir, done, b)
    ensures PartialBackup(dir, b)
    ensures done == ApexFiles(dir) ==> Backupable(dir) && IsBackup(dir, b)
  {
    hide IsApexFile, FileName;
    forall k | k in b ensures b[k].Package? && FileName(b[k].apex) == k && HoldsApex(dir, b[k]) {
      var n :| n in done && dir[n] == b[k];
    }
    if done == ApexFiles(dir) {
      forall n | n in dir && IsApexFile(n) ensures dir[n].Package? {
        assert n in done;
      }
    }
  }

  lemma NothingBackedUp(dir: Dir)
    ensures BackupOf(dir, {}, map[]) && PartialBackup(dir, map[])
  { }

  lemma NotBackupable(dir: Dir, file: string)
    requires file in ApexFiles(dir) && dir[file].Unreadable?
    ensures !Backupable(dir)
  { }

  /** A backup that lacks a file is not complete. */
  lemma {:induction false} OneFileMissing(dir: Dir, done: set<string>, b: Dir, file: string)
    requires BackupOf(dir, done, b) && Backupable(dir) && file in ApexFiles(dir) && file !in done
    ensures !IsBackup(dir, b)
  {
    hide IsApexFile, FileName, BackupOf, Backupable;
    FilesAreReadable(dir, file);
    BackupTurn(dir, done, file, b);
  }

  lemma FilesAreReadable(dir: Dir, file: string)
    requires Backupable(dir) && file in ApexFiles(dir)
    ensures dir[file].Package?
  { }

  /** Creating the directory is one write more than replacing an empty backup. */
  lemma FirstBackup(before: Option<Dir>, power: nat, made: Option<Dir>, left: nat, dir: Dir, after: Option<Dir>)
    requires made == if before.None? && power > 0 then Some(map[]) else before
    requires left == if before.None? then Left(power, 1) else power
    requires BackupCut(made, dir, after) && (left == 0 && made.None? ==> after == made)
    ensures BackupCut(before, dir, after)
    ensures made.Some? && BackupAt(made, dir, left, after) ==> BackupAt(before, dir, power, after)
    ensures made.None? ==> BackupAt(before, dir, power, after)
    ensures Left(left, BackupCost(made, dir)) == 0 || made.Some?
    ensures made.Some? ==> Left(left, BackupCost(made, dir)) == Left(power, BackupCost(before, dir))
  { }

  lemma PartOfPartial(dir: Dir, b: Dir, c: Dir)
    requires SubDir(c, b)
    ensures PartialBackup(dir, b) ==> PartialBackup(dir, c)
  { }

  lemma OneFileLess(dir: Dir, n: string)
    requires n in dir
    ensures |dir - {n}| == |dir| - 1
  {
    assert (dir - {n}).Keys == dir.Keys - {n};
    assert |(dir - {n}).Keys| == |dir - {n}| && |dir.Keys| == |dir|;
  }

  /** Every session is as before, or one of `ids` that now equals its copy. */
  ghost predicate CommittedSome(before: Sessions, after: Sessions, copies: Sessions, ids: set<int>)
    requires ids <= copies.Keys
  {
    forall id :: Get(after, id) == Get(before, id) || (id in ids && Get(after, id) == Some(copies[id]))
  }

  /** Committing marked copies of the sessions `ss`, when `before` is `ss` or `ss` already marked as
      being reverted. */
  lemma {:induction false} CommittedMarks(ss: Sessions, before: Sessions, after: Sessions, process: string,
                                          message: string, state: State)
    requires before == ss || before == MarkedAll(ss, process, message, REVERT_IN_PROGRESS)
    requires CommittedSome(before, after, MarkedAll(ss, process, message, state), Revertible(ss))
    ensures before == ss ==> MarkedSome(ss, after, {state})
    ensures before != ss || Revertible(ss) == {} ==> AllMarked(ss, after, {REVERT_IN_PROGRESS, state})
  {
    forall id ensures id in after <==> id in ss {
      assert Get(after, id) == Get(before, id) || id in Revertible(ss);
    }
    forall id | id in ss
      ensures after[id] == before[id] || (ss[id].IsRevertible() && after[id].state == state)
    {
      assert Get(after, id) == Get(before, id) || id in Revertible(ss);
    }
  }

  /** When every copy is committed, the sessions are the copies. */
  lemma {:induction false} CommittedAll(ss: Sessions, mid: Sessions, after: Sessions, earlier: Sessions,
                                        process: string, message: string, state: State)
    requires Revertible(ss) <= earlier.Keys && CommittedSome(ss, mid, earlier, Revertible(ss))
    requires CommittedSome(mid, after, MarkedAll(ss, process, message, state), Revertible(ss))
    requires forall id :: id in Revertible(ss) ==> Get(after, id) == Some(MarkedAll(ss, process, message, state)[id])
    ensures after == MarkedAll(ss, process, message, state)
  {
    forall id ensures Get(after, id) == Get(MarkedAll(ss, process, message, state), id) {
      if id !in Revertible(ss) {
        assert Get(after, id) == Get(mid, id) && Get(mid, id) == Get(ss, id);
      }
    }
    SameMap(after, MarkedAll(ss, process, message, state));
  }

  lemma NothingCommitted(ss: Sessions, copies: Sessions)
    requires Revertible(ss) <= copies.Keys
    ensures CommittedSome(ss, ss, copies, Revertible(ss))
  { }

  /** The copies of the sessions taken, set to a new state. */
  function Retagged(ss: Sessions, state: State): Sessions {
    map id | id in ss :: if ss[id].IsRevertible() then ss[id].(state := state) else ss[id]
  }

  lemma {:induction false} RetaggedMarks(ss: Sessions, process: string, message: string, state: State)
    ensures Retagged(MarkedAll(ss, process, message, REVERT_IN_PROGRESS), state) ==
      MarkedAll(ss, process, message, state)
  {
    var a, b := Retagged(MarkedAll(ss, process, message, REVERT_IN_PROGRESS), state),
      MarkedAll(ss, process, message, state);
    forall id ensures Get(a, id) == Get(b, id) { }
    SameMap(a, b);
  }

  /** What any cut of a revert leaves, whether or not there is something to restore. */
  ghost predicate RevertLeaves(d: Disk, e: Disk, checkpoints: bool) {
    if !checkpoints && d.backup.Some? && d.active.Some? then RevertCut(d, e)
    else
      && e == d.(sessions := e.sessions)
      && MarkedSome(d.sessions, e.sessions, {REVERT_IN_PROGRESS, if checkpoints then REVERTED else REVERT_FAILED})
  }

  /** The three parts of a revert put together: `d1` after the marks, `d2` after the restore, `d3`
      after the final states; `live1` and `live2` say that there was power left after the first two. */
  lemma {:induction false} RevertParts(d0: Disk, d1: Disk, d2: Disk, d3: Disk, live1: bool, live2: bool,
                                       checkpoints: bool, restored: bool, process: string, message: string)
    requires restored <==> checkpoints || (d0.backup.Some? && d0.active.Some?)
    requires d1 == d0.(sessions := d1.sessions)
    requires CommittedSome(d0.sessions, d1.sessions,
      MarkedAll(d0.sessions, process, message, REVERT_IN_PROGRESS), Revertible(d0.sessions))
    requires live1 ==> d1.sessions == MarkedAll(d0.sessions, process, message, REVERT_IN_PROGRESS)
    requires !live1 ==> d2 == d1 && !live2
    requires checkpoints || !restored ==> d2 == d1
    requires !checkpoints && restored ==> RestoreCut(d1, d2)
    requires !checkpoints && restored && live2 ==> d2 == d1.(active := d1.backup, backup := None)
    requires !live2 ==> d3 == d2
    requires d3 == d2.(sessions := d3.sessions)
    requires CommittedSome(d2.sessions, d3.sessions,
      MarkedAll(d0.sessions, process, message, if restored then REVERTED else REVERT_FAILED), Revertible(d0.sessions))
    ensures RevertLeaves(d0, d3, checkpoints)
    ensures (d3.sessions == MarkedAll(d0.sessions, process, message,
      if restored then REVERTED else REVERT_FAILED) && live2) ==>
      d3 == Reverted(d0, checkpoints, process, message)
  {
    hide MarkedAll, CommittedSome, MarkedSome, AllMarked, SubDir, Revertible;
    var ss, end := d0.sessions, if restored then REVERTED else REVERT_FAILED;
    CommittedMarks(ss, ss, d1.sessions, process, message, REVERT_IN_PROGRESS);
    WiderMarks(ss, d1.sessions, {REVERT_IN_PROGRESS}, {REVERT_IN_PROGRESS, end});
    if live1 {
      CommittedMarks(ss, d1.sessions, d3.sessions, process, message, end);
      WiderMarks(ss, d3.sessions, {REVERT_IN_PROGRESS, end}, {REVERT_IN_PROGRESS, end});
      MarkedIsAllMarked(ss, process, message, REVERT_IN_PROGRESS);
      WiderMarks(ss, d1.sessions, {REVERT_IN_PROGRESS}, {REVERT_IN_PROGRESS, end});
      if d1.sessions == ss {
        MarkedAlready(ss, d3.sessions, process, message, end);
      }
    }
  }

  lemma MarkedAlready(ss: Sessions, after: Sessions, process: string, message: string, state: State)
    requires MarkedAll(ss, process, message, REVERT_IN_PROGRESS) == ss && MarkedSome(ss, after, {state})
    ensures AllMarked(ss, after, {REVERT_IN_PROGRESS, state})
  { }

  lemma WiderMarks(before: Sessions, after: Sessions, states: set<State>, more: set<State>)
    requires states <= more
    ensures MarkedSome(before, after, states) ==> MarkedSome(before, after, more)
    ensures AllMarked(before, after, states) ==> MarkedSome(before, after, more) && AllMarked(before, after, more)
  { }

  lemma MarkedIsAllMarked(ss: Sessions, process: string, message: string, state: State)
    ensures AllMarked(ss, MarkedAll(ss, process, message, state), {state})
  { }

  // ---------- Reverts that reboots interrupt ----------

  /** No session is being reverted: what holds whenever apexd serves requests. */
  predicate AtRest(ss: Sessions) {
    forall id :: id in ss ==> ss[id].state != REVERT_IN_PROGRESS
  }

  /** No session is left to activate or to revert. */
  predicate AllFinal(ss: Sessions) {
    forall id :: id in ss ==> ss[id].IsFinalized() || ss[id].state == UNKNOWN
  }

  /** A revert has begun and is not over: either the backup is still there and some session says so,
      or the backup has been renamed and only the final states may be missing. */
  predicate Reverting(d: Disk) {
    d.active.Some? &&
    if d.backup.Some? then !AtRest(d.sessions)
    else
      forall id :: id in d.sessions ==>
        d.sessions[id].IsFinalized() || d.sessions[id].state in {UNKNOWN, REVERT_IN_PROGRESS}
  }

  /** What the active directory has to hold when the revert is over. */
  function Target(d: Disk): Dir
    requires d.active.Some?
  {
    if d.backup.Some? then d.backup.value else d.active.value
  }

  predicate RevertOver(d: Disk, target: Dir) {
    d.active == Some(target) && d.backup.None? && AllFinal(d.sessions)
  }

  /** The first call of a revert, cut anywhere: either it has not changed a thing, or the revert has begun
      and has to end with what the backup held at this call. */
  lemma {:induction false} CutRevertHasBegun(d: Disk, e: Disk)
    requires d.active.Some? && d.backup.Some? && Revertible(d.sessions) != {}
    requires RevertLeaves(d, e, false)
    ensures e == d || (Reverting(e) && Target(e) == d.backup.value)
  {
    NothingRevertible(d.sessions);
    var id :| id in d.sessions && d.sessions[id].IsRevertible();
    assert id in e.sessions;
    if e.backup.Some? && e.sessions != d.sessions && AtRest(e.sessions) {
      SameSessions(d.sessions, e.sessions);
    }
  }

  /** Sessions that are marked at most, but of which none is being reverted, are as they were. */
  lemma SameSessions(before: Sessions, after: Sessions)
    requires MarkedSome(before, after, {REVERT_IN_PROGRESS}) && AtRest(after)
    ensures after == before
  {
    forall id ensures Get(after, id) == Get(before, id) {
      assert id in before <==> id in after;
    }
    SameMap(after, before);
  }

  /** The sessions that were being reverted when the backup was gone already are still being reverted, or
      REVERT_FAILED. */
  ghost predicate FailingOnly(before: Sessions, after: Sessions) {
    forall id :: id in before && before[id].state in {REVERT_IN_PROGRESS, REVERT_FAILED} ==>
      id in after && after[id].state in {REVERT_IN_PROGRESS, REVERT_FAILED}
  }

  lemma OnlyFailingSoFar(ss: Sessions)
    ensures FailingOnly(ss, ss)
  { }

  lemma FailingEnds(before: Sessions, after: Sessions)
    requires AllFinal(after)
    ensures FailingOnly(before, after) ==>
      forall id :: id in before && before[id].state == REVERT_IN_PROGRESS ==>
        id in after && after[id].state == REVERT_FAILED
  { }

  lemma FailingChain(a: Sessions, b: Sessions, c: Sessions)
    ensures FailingOnly(a, b) && FailingOnly(b, c) ==> FailingOnly(a, c)
  { }

  lemma OverIsReverting(d: Disk, target: Dir)
    requires RevertOver(d, target)
    ensures Reverting(d) && Target(d) == target
  { }

  /** A cut of the revert is still the same revert. */
  lemma {:induction false} CutRevertGoesOn(d: Disk, e: Disk)
    requires Reverting(d) && RevertLeaves(d, e, false)
    ensures Reverting(e) && Target(e) == Target(d)
  {
    if d.backup.Some? {
      var id :| id in d.sessions && d.sessions[id].state == REVERT_IN_PROGRESS;
      assert d.sessions[id].IsRevertible();
      assert id in e.sessions;
    }
  }

  lemma {:induction false} RevertedIsOver(d: Disk, process: string, message: string)
    requires Reverting(d)
    ensures RevertOver(Reverted(d, false, process, message), Target(d))
  { }

  lemma {:induction false} RevertedAtRest(d: Disk, checkpoints: bool, process: string, message: string)
    ensures AtRest(Reverted(d, checkpoints, process, message).sessions)
    ensures AllFinal(Reverted(d, checkpoints, process, message).sessions)
  {
    MarkedAreFinal(d.sessions, process, message, REVERTED);
    MarkedAreFinal(d.sessions, process, message, REVERT_FAILED);
    hide MarkedAll, AllFinal, AtRest;
  }

  lemma {:induction false} MarkedAreFinal(ss: Sessions, process: string, message: string, state: State)
    requires FinalState(state)
    ensures AllFinal(MarkedAll(ss, process, message, state)) && AtRest(MarkedAll(ss, process, message, state))
  {
    var r := MarkedAll(ss, process, message, state);
    forall id | id in r ensures r[id].IsFinalized() || r[id].state == UNKNOWN {
      assert r[id] == if ss[id].IsRevertible() then Marked(ss[id], process, message, state) else ss[id];
    }
  }

  lemma NothingRevertible(ss: Sessions)
    ensures Revertible(ss) == {} <==> AllFinal(ss)
    ensures AllFinal(ss) ==> AtRest(ss)
  {
    if Revertible(ss) == {} {
      forall id | id in ss ensures ss[id].IsFinalized() || ss[id].state == UNKNOWN {
        assert id !in Revertible(ss);
      }
    } else if AllFinal(ss) {
      assert forall id :: id !in Revertible(ss);
    }
  }
}
