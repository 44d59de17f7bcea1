/** What happens, over a run, to the backup that all sessions share: which request wrote it last, and so what a
    revert brings back (apexd/apexd.cpp:3045-3164). */
module BackupHistory {
  import opened Basics
  import opened Packages
  import opened Storage
  import opened Rollback

  /** The names of the mounted files, in the active and in the decompression directory. */
  datatype MountedFiles = MountedFiles(active: set<string>, decompressed: set<string>)

  datatype Request =
    | Submit(id: int, children: seq<int>, rollbackEnabled: bool, isRollback: bool)
    | MarkReady(id: int)
    | MarkSuccessful(id: int)
    | Abort(id: int)
    | BootCompleted(mounted: MountedFiles)
    | Revert
    | ProcessCrashing(process: string)

  datatype Event =
    | Boot(budget: nat, needsCheckpoint: bool, needsRollback: bool, activationFails: bool)
    | DataRolledBack(active: Option<Dir>, backup: Option<Dir>, decompressed: Dir,
                     trees: map<string, string>, newTrees: map<string, string>)
    | Request(request: Request)

  /** Boots, cut or not, on which activation does not fail, and requests other than to revert. */
  predicate Peaceful(e: Event) {
    match e
    case Boot(_, _, _, activationFails) => !activationFails
    case DataRolledBack(_, _, _, _, _) => true
    case Request(r) => !r.Revert? && !r.ProcessCrashing?
  }

  /** One event of a run: the disk and the power before and after it, and whether a request was served. */
  datatype Step = Step(event: Event, served: bool, before: Disk, power: nat, after: Disk, left: nat)

  /** A submission that reaches its backup, whether it is accepted or refused in the end. */
  predicate Backs(t: Step) {
    && t.served && t.event.Request? && t.event.request.Submit? && t.event.request.id != 0
    && t.before.active.Some?
  }

  /** The success mark of an ACTIVATED session. */
  predicate Empties(t: Step) {
    && t.served && t.event.Request? && t.event.request.MarkSuccessful?
    && t.event.request.id in t.before.sessions && t.before.sessions[t.event.request.id].state == ACTIVATED
  }

  predicate Touches(t: Step) {
    Backs(t) || Empties(t)
  }

  /** What an uncut backup of `dir` leaves. */
  ghost predicate BackedUp(dir: Dir, backup: Option<Dir>) {
    backup.Some? && if Backupable(dir) then IsBackup(dir, backup.value) else backup.value == map[]
  }

  /** What one event makes of the backup. */
  ghost predicate BackupStep(t: Step) {
    && (t.before.active.Some? ==> t.after.active.Some?)
    && (t.before.backup.Some? ==> t.after.backup.Some?)
    && if Backs(t) then SubmissionStep(t.before.backup, t.before.active.value, t.power, t.after.backup, t.left)
       else if Empties(t) then
         SubDir(Files(t.after.backup), Files(t.before.backup)) && (t.left > 0 ==> Files(t.after.backup) == map[])
       else t.before.active.Some? ==> t.after.backup == t.before.backup
  }

  ghost predicate SubmissionStep(before: Option<Dir>, dir: Dir, power: nat, after: Option<Dir>, left: nat) {
    && BackupCut(before, dir, after)
    && (Backupable(dir) ==> BackupAt(before, dir, power, after))
    && (left > 0 ==> BackedUp(dir, after))
  }

  /** Whether requests are served after these steps: since the last boot, which got through, no request was
      cut. */
  predicate ServingAfter(trace: seq<Step>) {
    if trace == [] then false
    else
      var t, init := trace[|trace| - 1], trace[..|trace| - 1];
      match t.event
      case Boot(_, _, _, _) => t.left > 0
      case DataRolledBack(_, _, _, _, _) => ServingAfter(init)
      case Request(_) => ServingAfter(init) && t.left > 0
  }

  function LeftAfter(trace: seq<Step>, power: nat): nat {
    if trace == [] then power else trace[|trace| - 1].left
  }

  /** The steps of a peaceful run from `start` to `end`, without checkpoints. */
  ghost predicate Traced(trace: seq<Step>, events: seq<Event>, start: Disk, power: nat, end: Disk) {
    if trace == [] then events == [] && end == start
    else
      var t, init := trace[|trace| - 1], trace[..|trace| - 1];
      && |events| == |trace| && t.event == events[|events| - 1] && t.after == end && BackupStep(t)
      && (t.served <==> t.event.Request? && ServingAfter(init))
      && t.power == (if t.event.Boot? then t.event.budget else LeftAfter(init, power))
      && (!t.served && !t.event.Boot? ==> t.after == t.before && t.left == t.power)
      && Traced(init, events[..|events| - 1], start, power, t.before)
  }

  /** A peaceful run: where it starts, with what power, its steps, and where it ends. */
  datatype PeacefulRun = PeacefulRun(start: Disk, power: nat, trace: seq<Step>, end: Disk)
  {
    ghost predicate Of(events: seq<Event>) {
      Traced(trace, events, start, power, end)
    }

    function Left(): nat {
      LeftAfter(trace, power)
    }
  }

  lemma NothingTraced(d: Disk, power: nat)
    ensures Traced([], [], d, power, d) && !ServingAfter([]) && LeftAfter([], power) == power
  { }

  /** An event that is not a request served leaves the backup alone. */
  lemma UnservedStep(t: Step)
    requires !t.served && t.after.backup == t.before.backup && (t.before.active.Some? ==> t.after.active.Some?)
    ensures BackupStep(t)
  { }

  lemma OtherRequestStep(t: Step)
    requires t.event.Request? && t.after.backup == t.before.backup
    requires t.event.request.Submit? ==> t.event.request.id == 0
    requires t.event.request.MarkSuccessful? && t.event.request.id in t.before.sessions ==>
      t.before.sessions[t.event.request.id].state != ACTIVATED
    requires t.before.active.Some? ==> t.after.active.Some?
    ensures BackupStep(t)
  { }

  lemma SubmissionIsStep(t: Step)
    requires t.served && t.event.Request? && t.event.request.Submit? && t.event.request.id != 0
    requires t.before.active.Some? ==>
      SubmissionStep(t.before.backup, t.before.active.value, t.power, t.after.backup, t.left)
    requires (t.before.active.Some? ==> t.after.active.Some?) && (t.before.backup.Some? ==> t.after.backup.Some?)
    ensures BackupStep(t)
  {
    hide SubmissionStep;
  }

  lemma MarkIsStep(t: Step)
    requires t.served && t.event.Request? && t.event.request.MarkSuccessful?
    requires t.after.active == t.before.active && (t.before.backup.Some? ==> t.after.backup.Some?)
    requires if Empties(t) then
        SubDir(Files(t.after.backup), Files(t.before.backup)) && (t.left > 0 ==> Files(t.after.backup) == map[])
      else t.after.backup == t.before.backup
    ensures BackupStep(t)
  { }

  lemma {:induction false} TraceGrows(trace: seq<Step>, events: seq<Event>, start: Disk, power: nat, t: Step)
    requires Traced(trace, events, start, power, t.before) && BackupStep(t)
    requires t.served <==> t.event.Request? && ServingAfter(trace)
    requires t.power == (if t.event.Boot? then t.event.budget else LeftAfter(trace, power))
    requires !t.served && !t.event.Boot? ==> t.after == t.before && t.left == t.power
    ensures Traced(trace + [t], events + [t.event], start, power, t.after)
    ensures ServingAfter(trace + [t]) <==>
      (if t.event.Boot? then true else ServingAfter(trace)) && (t.event.DataRolledBack? || t.left > 0)
    ensures LeftAfter(trace + [t], power) == t.left
  {
    hide BackupStep;
    TraceLength(trace, events, start, power, t.before);
    var more, longer := trace + [t], events + [t.event];
    assert more[..|more| - 1] == trace && longer[..|longer| - 1] == events;
  }

  lemma TraceLength(trace: seq<Step>, events: seq<Event>, start: Disk, power: nat, end: Disk)
    requires Traced(trace, events, start, power, end)
    ensures |trace| == |events|
  { }

  /** The last request that wrote the backup. */
  function LastTouch(trace: seq<Step>): (r: Option<Step>)
    ensures r.Some? ==> r.value in trace && Touches(r.value)
  {
    if trace == [] then None
    else if Touches(trace[|trace| - 1]) then Some(trace[|trace| - 1])
    else LastTouch(trace[..|trace| - 1])
  }

  /** Whatever else happens, the backup is as the last request that wrote it left it. */
  lemma {:induction false} BackupIsLastTouch(trace: seq<Step>, events: seq<Event>, start: Disk, power: nat, end: Disk)
    requires Traced(trace, events, start, power, end) && start.active.Some?
    ensures end.active.Some? && (start.backup.Some? ==> end.backup.Some?)
    ensures match LastTouch(trace)
      case None => end.backup == start.backup
      case Some(t) => end.backup == t.after.backup && BackupStep(t) && t.before.active.Some?
  {
    hide BackupStep, Backs, Empties, SubmissionStep;
    if trace != [] {
      var t, init := trace[|trace| - 1], trace[..|trace| - 1];
      BackupIsLastTouch(init, events[..|events| - 1], start, power, t.before);
      StepKeeps(t);
    }
  }

  lemma StepKeeps(t: Step)
    requires BackupStep(t) && t.before.active.Some?
    ensures t.after.active.Some? && (t.before.backup.Some? ==> t.after.backup.Some?)
    ensures !Touches(t) ==> t.after.backup == t.before.backup
  { }

  /** A request that was not cut while it wrote the backup. */
  predicate Whole(t: Step) {
    t.left > 0 || (Backs(t) && Backupable(t.before.active.value) &&
                   t.power >= BackupCost(t.before.backup, t.before.active.value))
  }

  /** The backup after a run is the complete backup of the directory that was active at the last submission
      that reached its backup, accepted or refused; a later success mark has emptied it. */
  lemma {:induction false} BackupAfterRun(trace: seq<Step>, events: seq<Event>, start: Disk, power: nat, end: Disk)
    requires Traced(trace, events, start, power, end) && start.active.Some?
    ensures match LastTouch(trace)
      case None => end.backup == start.backup
      case Some(t) =>
        Whole(t) ==> if Backs(t) then BackedUp(t.before.active.value, end.backup) else Files(end.backup) == map[]
  {
    hide Traced, Backs, Empties, BackupCut, BackupAt, Backupable, BackupCost, IsBackup;
    BackupIsLastTouch(trace, events, start, power, end);
    match LastTouch(trace) {
      case None =>
      case Some(t) =>
        if Backs(t) && Backupable(t.before.active.value) {
          CompleteIffPowered(t.before.backup, t.before.active.value, t.power, t.after.backup);
        }
    }
  }

  /** If the last submission was cut while it wrote the backup, what a revert brings back is all from the
      directory of that submission or all from the backup before it. */
  lemma {:induction false} BackupAfterCut(trace: seq<Step>, events: seq<Event>, start: Disk, power: nat, end: Disk)
    requires Traced(trace, events, start, power, end) && start.active.Some? && start.backup.Some?
    ensures match LastTouch(trace)
      case None => true
      case Some(t) => Backs(t) ==>
        AllFromOne(Files(Reverted(end, false, "", "").active), t.before.active.value, Files(t.before.backup))
  {
    hide Traced, Backs, Empties, BackupCut, BackupAt, Backupable, BackedUp, AllFromOne;
    BackupIsLastTouch(trace, events, start, power, end);
    match LastTouch(trace) {
      case None =>
      case Some(t) =>
        if Backs(t) {
          RevertToCutBackup(end, t.before.backup, t.before.active.value, "", "");
        }
    }
  }

  /** The last request that wrote the backup was not cut meanwhile. */
  predicate LastTouchWhole(trace: seq<Step>) {
    LastTouch(trace).Some? ==> Whole(LastTouch(trace).value)
  }

  /** Nothing has written the backup since, or else the last request that did was a submission that found the
      same packages as are in `dir`; or the backup is empty and there was nothing to back up. */
  predicate StillBackedUp(dir: Dir, trace: seq<Step>) {
    match LastTouch(trace)
    case None => true
    case Some(t) =>
      if Backs(t) && Backupable(t.before.active.value) then PackagesIn(t.before.active.value) == PackagesIn(dir)
      else ApexFiles(dir) == {}
  }

  /** Whether the packages of a directory that was backed up can still be restored after a run. */
  lemma {:induction false} RestoredIff(trace: seq<Step>, events: seq<Event>, start: Disk, power: nat, end: Disk,
                                       dir: Dir)
    requires Traced(trace, events, start, power, end) && start.active.Some?
    requires start.backup.Some? && Backupable(dir) && IsBackup(dir, start.backup.value)
    requires LastTouchWhole(trace)
    ensures end.active.Some? && end.backup.Some?
    ensures PackagesIn(end.backup.value) == PackagesIn(dir) <==> StillBackedUp(dir, trace)
    ensures StillBackedUp(dir, trace) <==> IsBackup(dir, end.backup.value)
  {
    hide Traced, Backs, Empties, BackupCut, BackupAt, Backupable, IsBackup, PackagesIn, BackupStep, ApexFiles, Whole;
    BackupIsLastTouch(trace, events, start, power, end);
    BackupAfterRun(trace, events, start, power, end);
    var b := end.backup.value;
    NothingToRestore(dir);
    match LastTouch(trace) {
      case None => SamePackagesRestored(dir, dir, b);
      case Some(t) =>
        if Backs(t) && Backupable(t.before.active.value) {
          SamePackagesRestored(t.before.active.value, dir, b);
        }
    }
  }

  lemma SamePackagesRestored(found: Dir, dir: Dir, b: Dir)
    requires Backupable(found) && Backupable(dir) && IsBackup(found, b)
    ensures PackagesIn(b) == PackagesIn(found)
    ensures IsBackup(dir, b) <==> PackagesIn(b) == PackagesIn(dir)
  {
    hide Backupable, PackagesIn, ApexFiles;
    BackupDetermined(found, b, b);
    CompleteIffSamePackages(dir, b);
  }

  lemma NothingToRestore(dir: Dir)
    requires Backupable(dir)
    ensures ApexFiles(dir) == {} <==> PackagesIn(map[]) == PackagesIn(dir)
    ensures ApexFiles(dir) == {} <==> IsBackup(dir, map[])
  {
    hide IsApexFile;
    assert ApexFiles(map[]) == {};
    if n :| n in ApexFiles(dir) {
      assert dir[n].apex in PackagesIn(dir);
      var none: Dir := map[];
      assert Get(none, FileName(dir[n].apex)) == None;
    }
  }

  /** In particular: it is enough that no ACTIVATED session is marked successful, and that every submission that
      reaches its backup finds the packages of `dir`. */
  lemma {:induction false} SameAtEverySubmission(trace: seq<Step>, dir: Dir)
    requires forall t :: t in trace ==> !Empties(t)
    requires forall t :: t in trace && Backs(t) ==>
      Backupable(t.before.active.value) && PackagesIn(t.before.active.value) == PackagesIn(dir)
    ensures StillBackedUp(dir, trace)
  {
    hide Backs, Empties, Backupable, PackagesIn;
  }
}
