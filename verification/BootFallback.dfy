/** The activation part of OnStart and its fallback to pre-installed copies
    (apexd/apexd.cpp:1768-1820, 2948-2992). */
module BootFallback {
  import opened Basics
  import opened Naming
  import opened Packages
  import opened Repository
  import opened Selection
  import opened MountedApexes
  import opened Activation
  import ActivationResult
  import CompressedApex

  // The two lists

  /** One call of ProcessCompressedApex for a boot: what is in the decompression directory `dir` before and after
      it, how the file system answers for each capex, and the APEXes it returns. */
  datatype Unpacking = Unpacking(
    dir: string,
    before: CompressedApex.Store,
    worlds: seq<CompressedApex.World>,
    after: CompressedApex.Store,
    apexes: seq<ApexFile>)
  {
    ghost predicate Of(files: seq<ApexFile>) {
      |worlds| == |Capexes(files)| &&
      CompressedApex.ProcessedAll(dir, before, after, Capexes(files), false, worlds, apexes)
    }

    function Place(f: ApexFile): string {
      CompressedApex.PathIn(dir, f.apex, DECOMPRESSED_SUFFIX)
    }

    /** The form in which a file is activated: itself, or what validates at its decompressed path. */
    function Activated(f: ApexFile): Option<ApexFile> {
      if !f.apex.compressed then Some(f)
      else if CompressedApex.ValidAt(after, Place(f), f.apex) then
        Some(CompressedApex.FileAt(after, Place(f), f.apex))
      else None
    }
  }

  function Capexes(files: seq<ApexFile>): seq<Apex> {
    if files == [] then []
    else
      var last := files[|files| - 1];
      Capexes(files[..|files| - 1]) + if last.apex.compressed then [last.apex] else []
  }

  function Uncompressed(files: seq<ApexFile>): seq<ApexFile> {
    if files == [] then []
    else
      var last := files[|files| - 1];
      Uncompressed(files[..|files| - 1]) + if last.apex.compressed then [] else [last]
  }

  /** Takes the compressed files off a list, processes them, and puts what they give at its end. */
  method ProcessCompressed(files: seq<ApexFile>, unpacker: CompressedApex.Decompressor,
                           worlds: seq<CompressedApex.World>)
    returns (list: seq<ApexFile>, ghost u: Unpacking)
    requires |worlds| == |Capexes(files)|
    modifies unpacker
    ensures u == Unpacking(unpacker.decompressionDir, old(unpacker.store), worlds, unpacker.store, u.apexes)
    ensures u.Of(files) && list == Uncompressed(files) + u.apexes
  {
    list := [];
    var capexes := [];
    for i := 0 to |files|
      invariant list == Uncompressed(files[..i]) && capexes == Capexes(files[..i])
    {
      assert files[..i + 1][..i] == files[..i];
      if files[i].apex.compressed {
        capexes := capexes + [files[i].apex];
      } else {
        list := list + [files[i]];
      }
    }
    assert files[..|files|] == files;
    ghost var before := unpacker.store;
    var apexes := unpacker.ProcessAll(capexes, false, worlds);
    u := Unpacking(unpacker.decompressionDir, before, worlds, unpacker.store, apexes);
    list := list + apexes;
  }

  /** A file on the list whose package is not active and has another, pre-installed, copy to try. */
  predicate NeedsFallback(f: ApexFile, repo: ApexFileRepository, active: set<string>)
    reads repo`preInstalled
  {
    !f.apex.providesSharedLibs && !repo.IsPreInstalledApex(f) && f.apex.name !in active
  }

  function Missing(files: seq<ApexFile>, repo: ApexFileRepository, active: set<string>): seq<ApexFile>
    requires forall f :: f in files ==> f.apex.name in repo.preInstalled
    reads repo`preInstalled
  {
    if files == [] then []
    else
      var last := files[|files| - 1];
      Missing(files[..|files| - 1], repo, active) +
        if NeedsFallback(last, repo, active) then [repo.preInstalled[last.apex.name]] else []
  }

  /** The first loop of ActivateMissingApexes. */
  method CollectMissing(files: seq<ApexFile>, repo: ApexFileRepository, active: set<string>)
    returns (fallback: seq<ApexFile>)
    requires forall f :: f in files ==> f.apex.name in repo.preInstalled
    ensures fallback == Missing(files, repo, active)
  {
    fallback := [];
    for i := 0 to |files|
      invariant fallback == Missing(files[..i], repo, active)
    {
      assert files[..i + 1][..i] == files[..i];
      var f := files[i];
      if f.apex.providesSharedLibs {
        continue;
      }
      if repo.IsPreInstalledApex(f) {
        continue;
      }
      if f.apex.name !in active {
        fallback := fallback + [repo.preInstalled[f.apex.name]];
      }
    }
    assert files[..|files|] == files;
  }

  lemma {:induction false} MissingHas(files: seq<ApexFile>, repo: ApexFileRepository, active: set<string>, f: ApexFile)
    requires forall g :: g in files ==> g.apex.name in repo.preInstalled
    requires f in files && NeedsFallback(f, repo, active)
    ensures repo.preInstalled[f.apex.name] in Missing(files, repo, active)
  {
    hide NeedsFallback;
    var n := |files| - 1;
    assert files == files[..n] + [files[n]];
    if f != files[n] {
      MissingHas(files[..n], repo, active, f);
    }
  }

  lemma {:induction false} CapexesHave(files: seq<ApexFile>, a: Apex)
    ensures a in Capexes(files) <==> exists f :: f in files && f.apex == a && a.compressed
  {
    if files != [] {
      var n := |files| - 1;
      CapexesHave(files[..n], a);
      assert files == files[..n] + [files[n]];
    }
  }

  lemma {:induction false} UncompressedHas(files: seq<ApexFile>, f: ApexFile)
    ensures f in Uncompressed(files) <==> f in files && !f.apex.compressed
  {
    if files != [] {
      var n := |files| - 1;
      UncompressedHas(files[..n], f);
      assert files == files[..n] + [files[n]];
    }
  }

  /** No compressed file of the list shares the id of `f`. */
  ghost predicate Alone(files: seq<ApexFile>, f: ApexFile) {
    forall g :: g in files && g.apex.compressed ==> g.apex == f.apex || g.apex.Id() != f.apex.Id()
  }

  /** Removing works and decompression gives a file that validates, if the file is compressed. */
  predicate Unpackable(files: seq<ApexFile>, u: Unpacking, f: ApexFile)
    requires |u.worlds| == |Capexes(files)|
  {
    f.apex.compressed ==>
      CompressedApex.CanRemove(Capexes(files), u.worlds, f.apex) &&
      forall i :: 0 <= i < |u.worlds| && Capexes(files)[i] == f.apex ==> CompressedApex.Unpacks(f.apex, u.worlds[i])
  }

  /** A file of the list that can be unpacked is activated in some form, and this form is on the list that
      ProcessCompressed makes. */
  lemma {:induction false} ProcessedHas(files: seq<ApexFile>, u: Unpacking, f: ApexFile)
    requires u.Of(files) && f in files && Alone(files, f) && Unpackable(files, u, f)
    ensures u.Activated(f).Some? && u.Activated(f).value in Uncompressed(files) + u.apexes
  {
    hide CompressedApex.ProcessedAll, CompressedApex.PathIn, CompressedApex.Validates, CompressedApex.Unpacks;
    if f.apex.compressed {
      CapexesHave(files, f.apex);
      forall a | a in Capexes(files) ensures a == f.apex || a.Id() != f.apex.Id() {
        CapexesHave(files, a);
      }
      CompressedApex.UnpackedStays(u.dir, u.before, u.after, Capexes(files), u.worlds, u.apexes, f.apex);
      CompressedApex.BootListIsWhatIsValid(u.dir, u.before, u.after, Capexes(files), u.worlds, u.apexes, f.apex);
    } else {
      UncompressedHas(files, f);
    }
  }

  // Activation

  function JobOf(f: ApexFile): Job {
    Job(f.apex.name, f.apex.version, f.path, f.apex.providesSharedLibs)
  }

  function JobsOfFiles(files: seq<ApexFile>): seq<Job> {
    seq(|files|, i requires 0 <= i < |files| => JobOf(files[i]))
  }

  /** One call of ActivateApexPackages: the system it starts, and a schedule after which all workers have left. */
  datatype Phase = Phase(start: System, schedule: seq<Turn>)

  ghost predicate IsPhase(p: Phase, files: seq<ApexFile>) {
    ScheduleFor(p.start, p.schedule) && Started(p.start, JobsOfFiles(files)) && AllExited(Run(p.start, p.schedule))
  }

  /** Mounting the job is never refused. */
  ghost predicate AlwaysMounts(p: Phase, job: Job)
    requires ScheduleFor(p.start, p.schedule)
  {
    forall i :: 0 <= i < |p.schedule| ==> TurnMounts(Run(p.start, p.schedule[..i]), p.schedule[i], job)
  }

  predicate TurnMounts(s: System, t: Turn, job: Job) {
    t.worker < |s.workers| && s.workers[t.worker].Checked? && s.workers[t.worker].job == job ==> t.world.mount.Some?
  }

  /** Every result for the job leaves its package in the database. */
  ghost predicate JobRecorded(s: System, job: Job) {
    forall w, i :: 0 <= w < |s.results| && 0 <= i < |s.results[w]| && s.results[w][i].job == job ==>
      Entries(s.db, job.name) != []
  }

  lemma {:induction false} NextRecordsJob(s: System, t: Turn, job: Job)
    requires t.worker < |s.workers| == |s.results| && MountsRecorded(s) && JobRecorded(s, job)
    requires TurnMounts(s, t, job) && job.name !in BANNED_NAMES
    ensures JobRecorded(Next(s, t.worker, t.world), job)
  {
    hide Insert, HasKey, UniqueDevices, FindVersion, Visits, SoundDb, Entries, JobRecorded;
    var w, u := t.worker, Next(s, t.worker, t.world);
    NextDb(s, w, t.world, []);
    NextMountsRecorded(s, w, t.world, []);
    ResultsGrow(s, w, t.world);
    if u.results[w] != s.results[w] && u.results[w][|s.results[w]|].job == job {
      var o := u.results[w][|s.results[w]|];
      if !o.ok {
        assert s.workers[w].Mounted?;
      }
      assert Entries(u.db, job.name) != [];
    }
    RecordedAfter(s, u, w, job);
  }

  lemma {:induction false} RecordedAfter(s: System, u: System, w: nat, job: Job)
    requires w < |s.results| == |u.results| && JobRecorded(s, job)
    requires forall n :: Entries(s.db, n) != [] ==> Entries(u.db, n) != []
    requires u.results == s.results[w := u.results[w]]
    requires u.results[w] == s.results[w] ||
      (|u.results[w]| == |s.results[w]| + 1 && u.results[w][..|s.results[w]|] == s.results[w])
    requires u.results[w] != s.results[w] && u.results[w][|s.results[w]|].job == job ==> Entries(u.db, job.name) != []
    ensures JobRecorded(u, job)
  {
    forall v, i | 0 <= v < |u.results| && 0 <= i < |u.results[v]| && u.results[v][i].job == job
      ensures Entries(u.db, job.name) != [] {
      if i < |s.results[v]| {
        assert u.results[v][i] == s.results[v][i];
      }
    }
  }

  /** A step adds at most one result; a failure of a mounted job aside, it needs a refusal or a banned name. */
  lemma {:induction false} ResultsGrow(s: System, w: nat, world: World)
    requires w < |s.workers| == |s.results|
    ensures var u := Next(s, w, world);
      && u.results == s.results[w := u.results[w]]
      && (u.results[w] == s.results[w] ||
           (!s.workers[w].Idle? && !s.workers[w].Exited?
            && |u.results[w]| == |s.results[w]| + 1 && u.results[w][..|s.results[w]|] == s.results[w]
            && var o := u.results[w][|s.results[w]|];
               && o.job == s.workers[w].job
               && (!o.ok ==>
                    s.workers[w].Mounted? || (s.workers[w].Checked? && world.mount.None?) ||
                    o.job.name in BANNED_NAMES)))
  {
    hide Insert, HasKey, UniqueDevices, FindVersion, Visits, Entries, MountData, PackageMountPoint, PackageId;
    if s.workers[w].Mounted? {
      BindShape(s, w, world);
    }
  }

  lemma {:induction false} RunRecordsJob(p: Phase, job: Job)
    requires ScheduleFor(p.start, p.schedule) && |p.start.workers| == |p.start.results|
    requires MountsRecorded(p.start) && JobRecorded(p.start, job)
    requires AlwaysMounts(p, job) && job.name !in BANNED_NAMES
    ensures MountsRecorded(Run(p.start, p.schedule)) && JobRecorded(Run(p.start, p.schedule), job)
    decreases |p.schedule|
  {
    hide Next, MountsRecorded, JobRecorded, TurnMounts;
    var n := |p.schedule| - 1;
    if n >= 0 {
      var init := p.schedule[..n];
      forall i | 0 <= i < n ensures TurnMounts(Run(p.start, init[..i]), init[i], job) {
        assert init[..i] == p.schedule[..i];
      }
      RunRecordsJob(Phase(p.start, init), job);
      NextMountsRecorded(Run(p.start, init), p.schedule[n].worker, p.schedule[n].world, []);
      NextRecordsJob(Run(p.start, init), p.schedule[n], job);
    }
  }

  lemma {:induction false} RunKeepsEntries(s: System, schedule: seq<Turn>, name: string)
    requires ScheduleFor(s, schedule) && Entries(s.db, name) != []
    ensures Entries(Run(s, schedule).db, name) != []
  {
    hide Next, Entries;
    if schedule != [] {
      var n := |schedule| - 1;
      RunKeepsEntries(s, schedule[..n], name);
      NextDb(Run(s, schedule[..n]), schedule[n].worker, schedule[n].world, []);
    }
  }

  lemma {:induction false} DoneHas(results: seq<seq<Outcome>>, job: Job)
    requires job in JobsDone(results)
    ensures exists w, i :: 0 <= w < |results| && 0 <= i < |results[w]| && results[w][i].job == job
  {
    var n := |results| - 1;
    if job in JobsDone(results[..n]) {
      DoneHas(results[..n], job);
      var w, i :| 0 <= w < n && 0 <= i < |results[..n][w]| && results[..n][w][i].job == job;
      assert results[w][i].job == job;
    } else {
      var jobs := JobsOf(results[n]);
      assert job in jobs;
      var i :| 0 <= i < |jobs| && jobs[i] == job;
      assert results[n][i].job == job;
    }
  }

  /** After a phase every file on its list has a result. */
  lemma {:induction false} EveryFileHasResult(p: Phase, files: seq<ApexFile>, f: ApexFile)
    requires IsPhase(p, files) && f in files
    ensures var t := Run(p.start, p.schedule);
      exists w, i :: 0 <= w < |t.results| && 0 <= i < |t.results[w]| && t.results[w][i].job == JobOf(f)
  {
    var jobs := JobsOfFiles(files);
    var k :| 0 <= k < |files| && files[k] == f;
    assert jobs[k] == JobOf(f);
    assert JobOf(f) in multiset(jobs);
    EveryJobDoneOnce(p.start, p.schedule, jobs);
    DoneHas(Run(p.start, p.schedule).results, JobOf(f));
  }

  /** A file on the list that is never refused has its package in the database at the end. */
  lemma {:induction false} MountableIsMounted(p: Phase, files: seq<ApexFile>, f: ApexFile)
    requires IsPhase(p, files) && f in files
    requires AlwaysMounts(p, JobOf(f)) && f.apex.name !in BANNED_NAMES
    ensures Entries(Run(p.start, p.schedule).db, f.apex.name) != []
  {
    hide Run, AlwaysMounts;
    RunRecordsJob(p, JobOf(f));
    EveryFileHasResult(p, files, f);
  }

  /** A file on the list without a mount at the end has been reported as failed. */
  lemma {:induction false} UnmountedIsReported(p: Phase, files: seq<ApexFile>, f: ApexFile)
    requires IsPhase(p, files) && f in files
    ensures var t := Run(p.start, p.schedule);
      Entries(t.db, f.apex.name) != [] || Reported(t.results, JobOf(f), false)
  {
    var t := Run(p.start, p.schedule);
    EveryFileHasResult(p, files, f);
    RunRecords(p.start, p.schedule);
    hide Run;
    var w, i :| 0 <= w < |t.results| && 0 <= i < |t.results[w]| && t.results[w][i].job == JobOf(f);
    assert t.results[w][i] == Outcome(JobOf(f), t.results[w][i].ok);
  }

  lemma {:induction false} RunRecords(s: System, schedule: seq<Turn>)
    requires ScheduleFor(s, schedule) && MountsRecorded(s)
    ensures MountsRecorded(Run(s, schedule))
  {
    hide Next, MountsRecorded;
    if schedule != [] {
      var n := |schedule| - 1;
      RunRecords(s, schedule[..n]);
      NextMountsRecorded(Run(s, schedule[..n]), schedule[n].worker, schedule[n].world, []);
    }
  }

  // A whole boot

  /** The packages that GetActivePackagesMap finds: those whose latest mount comes from a file that opens. */
  ghost function ActiveNames(db: Mounts, opens: set<string>): set<string> {
    set n | n in db && db[n] != [] && Last(db[n]).fullPath in opens
  }

  /** A run of OnStart that does not reboot, from the selection on: capexes are unpacked and the list is
      activated in a first phase. If this fails, be it only at the contributions `oks` to the shared
      libraries, the missing packages follow in a second phase. */
  datatype Boot = Boot(
    unpacked: Unpacking,
    list: seq<ApexFile>,
    first: Phase,
    oks: seq<bool>,
    opens: set<string>,
    unpackedMissing: Unpacking,
    fallback: seq<ApexFile>,
    second: Option<Phase>)
  {
    ghost function FinalDb(): Mounts
      requires ScheduleFor(first.start, first.schedule)
      requires second.Some? ==> ScheduleFor(second.value.start, second.value.schedule)
    {
      if second.Some? then Run(second.value.start, second.value.schedule).db else Run(first.start, first.schedule).db
    }
  }

  ghost predicate IsBoot(b: Boot, repo: ApexFileRepository, selected: seq<ApexFile>)
    reads repo`preInstalled
  {
    && b.unpacked.dir == repo.decompressionDir
    && b.unpacked.Of(selected) && b.list == Uncompressed(selected) + b.unpacked.apexes
    && IsPhase(b.first, b.list)
    && var t := Run(b.first.start, b.first.schedule);
       && (b.second.Some? <==> ActivationResult.ActivationFailed(t.results, b.oks))
       && (b.second.Some? ==>
            && (forall f :: f in b.list ==> f.apex.name in repo.preInstalled)
            && var missing := Missing(b.list, repo, ActiveNames(t.db, b.opens));
               && b.unpackedMissing.dir == repo.decompressionDir && b.unpackedMissing.before == b.unpacked.after
               && b.unpackedMissing.Of(missing) && b.fallback == Uncompressed(missing) + b.unpackedMissing.apexes
               && IsPhase(b.second.value, b.fallback)
               && b.second.value.start.db == t.db)
  }

  /** The pre-installed copy of a package can be unpacked, if need be, and the form in which it is activated
      is of this package and is mounted. */
  ghost predicate Dependable(p: Phase, pre: ApexFile, files: seq<ApexFile>, u: Unpacking)
    requires ScheduleFor(p.start, p.schedule) && |u.worlds| == |Capexes(files)|
  {
    && Unpackable(files, u, pre)
    && (u.Activated(pre).Some? ==>
         && u.Activated(pre).value.apex.name == pre.apex.name
         && AlwaysMounts(p, JobOf(u.Activated(pre).value)))
  }

  /** A package without shared libraries, with versions that selection handles, and no compressed file on data. */
  ghost predicate Ordinary(repo: ApexFileRepository, name: string)
    reads repo`preInstalled, repo`data
  {
    && name in repo.preInstalled && name !in BANNED_NAMES
    && !repo.preInstalled[name].apex.providesSharedLibs && repo.preInstalled[name].apex.version >= INT32_MIN
    && (name in repo.data ==>
         var data := repo.data[name].apex;
         !data.providesSharedLibs && !data.compressed && data.version >= INT32_MIN)
  }

  /** Whatever fails, every run of OnStart that does not reboot ends with a mounted version of each
      pre-installed package without shared libraries, if the pre-installed copies can be unpacked and
      mounted. */
  lemma {:induction false} EveryPackageIsMounted(b: Boot, repo: ApexFileRepository, names: seq<string>, name: string)
    requires repo.Valid() && ApartOnDisk(repo) && Ordinary(repo, name) && name in names
    requires IsBoot(b, repo, Flat(names, repo))
    requires Dependable(b.first, repo.preInstalled[name], Flat(names, repo), b.unpacked)
    requires b.second.Some? ==>
      Dependable(b.second.value, repo.preInstalled[name], MissingAfter(b, repo), b.unpackedMissing)
    ensures Entries(b.FinalDb(), name) != []
  {
    hide Run, AlwaysMounts, IsPhase, Int32, StartsWith, Missing, Unpackable, Alone;
    var pre := repo.preInstalled[name];
    if pre in Chosen(repo, name) {
      FlatHas(names, repo, pre);
      AloneInSelection(names, repo, name);
      ProcessedHas(Flat(names, repo), b.unpacked, pre);
      MountableIsMounted(b.first, b.list, b.unpacked.Activated(pre).value);
      LaterPhaseKeeps(b, repo, Flat(names, repo), name);
    } else {
      DataIsChosen(repo, name);
      var data := repo.data[name];
      FlatHas(names, repo, data);
      UncompressedHas(Flat(names, repo), data);
      FallbackMounts(b, repo, Flat(names, repo), data);
    }
  }

  /** The packages that the second phase of a boot is for. */
  ghost function MissingAfter(b: Boot, repo: ApexFileRepository): seq<ApexFile>
    requires ScheduleFor(b.first.start, b.first.schedule)
    requires forall f :: f in b.list ==> f.apex.name in repo.preInstalled
    reads repo`preInstalled
  {
    Missing(b.list, repo, ActiveNames(Run(b.first.start, b.first.schedule).db, b.opens))
  }

  lemma {:induction false} AloneInSelection(names: seq<string>, repo: ApexFileRepository, name: string)
    requires repo.Valid() && Ordinary(repo, name)
    ensures Alone(Flat(names, repo), repo.preInstalled[name])
  {
    hide Chosen, PackageId;
    var pre := repo.preInstalled[name];
    forall g | g in Flat(names, repo) && g.apex.compressed ensures g.apex == pre.apex || g.apex.Id() != pre.apex.Id() {
      FlatHas(names, repo, g);
      var n :| n in names && g in Chosen(repo, n);
      ChosenIsOf(repo, n, g);
      if g.apex.Id() == pre.apex.Id() {
        PackageIdInjective(g.apex.name, g.apex.version, pre.apex.name, pre.apex.version);
      }
    }
  }

  lemma ChosenIsOf(repo: ApexFileRepository, name: string, f: ApexFile)
    requires repo.Valid() && f in Chosen(repo, name)
    ensures name in repo.preInstalled && f.apex.name == name
    ensures f == repo.preInstalled[name] || (name in repo.data && f == repo.data[name])
  {
    hide Activates;
    var pre, data := repo.preInstalled[name], Get(repo.data, name);
    var updated := if data.Some? then Some(data.value.apex) else None;
    var first := if PreChosen(pre.apex, updated) then [pre] else [];
    assert f in first ==> f == pre;
    assert Chosen(repo, name) == first + if DataChosen(pre.apex, updated) then [data.value] else [];
  }

  lemma {:induction false} MissingArePreInstalled(files: seq<ApexFile>, repo: ApexFileRepository, active: set<string>,
                                                  g: ApexFile)
    requires repo.Valid() && forall f :: f in files ==> f.apex.name in repo.preInstalled
    requires g in Missing(files, repo, active)
    ensures g.apex.name in repo.preInstalled && g == repo.preInstalled[g.apex.name]
  {
    hide NeedsFallback;
    var n := |files| - 1;
    if g in Missing(files[..n], repo, active) {
      MissingArePreInstalled(files[..n], repo, active, g);
    }
  }

  lemma {:induction false} AloneAmongMissing(files: seq<ApexFile>, repo: ApexFileRepository, active: set<string>,
                                             name: string)
    requires repo.Valid() && (forall f :: f in files ==> f.apex.name in repo.preInstalled) && name in repo.preInstalled
    ensures Alone(Missing(files, repo, active), repo.preInstalled[name])
  {
    hide Missing, PackageId;
    var pre := repo.preInstalled[name];
    forall g | g in Missing(files, repo, active) && g.apex.compressed
      ensures g.apex == pre.apex || g.apex.Id() != pre.apex.Id()
    {
      MissingArePreInstalled(files, repo, active, g);
      if g.apex.Id() == pre.apex.Id() {
        PackageIdInjective(g.apex.name, g.apex.version, pre.apex.name, pre.apex.version);
      }
    }
  }

  /** The second phase mounts the pre-installed copy of a package whose data file failed in the first. */
  lemma {:induction false} FallbackMounts(b: Boot, repo: ApexFileRepository, selected: seq<ApexFile>, data: ApexFile)
    requires repo.Valid() && IsBoot(b, repo, selected) && data in b.list
    requires data.apex.name in repo.preInstalled && data.apex.name !in BANNED_NAMES
    requires !data.apex.providesSharedLibs && !repo.IsPreInstalledApex(data)
    requires b.second.Some? ==>
      Dependable(b.second.value, repo.preInstalled[data.apex.name], MissingAfter(b, repo), b.unpackedMissing)
    ensures Entries(b.FinalDb(), data.apex.name) != []
  {
    hide AlwaysMounts, StartsWith, Alone, Unpackable;
    var t := Run(b.first.start, b.first.schedule);
    UnmountedIsReported(b.first, b.list, data);
    if Entries(t.db, data.apex.name) == [] {
      var pre, missing := repo.preInstalled[data.apex.name], MissingAfter(b, repo);
      MissingHas(b.list, repo, ActiveNames(t.db, b.opens), data);
      AloneAmongMissing(b.list, repo, ActiveNames(t.db, b.opens), data.apex.name);
      ProcessedHas(missing, b.unpackedMissing, pre);
      MountableIsMounted(b.second.value, b.fallback, b.unpackedMissing.Activated(pre).value);
    } else {
      LaterPhaseKeeps(b, repo, selected, data.apex.name);
    }
  }

  lemma DataIsChosen(repo: ApexFileRepository, name: string)
    requires Ordinary(repo, name) && repo.preInstalled[name] !in Chosen(repo, name)
    ensures name in repo.data && repo.data[name] in Chosen(repo, name)
  {
    SomethingIsChosen(repo.preInstalled[name], Get(repo.data, name));
  }

  lemma {:induction false} LaterPhaseKeeps(b: Boot, repo: ApexFileRepository, selected: seq<ApexFile>, name: string)
    requires IsBoot(b, repo, selected)
    requires Entries(Run(b.first.start, b.first.schedule).db, name) != []
    ensures Entries(b.FinalDb(), name) != []
  {
    if b.second.Some? {
      RunKeepsEntries(b.second.value.start, b.second.value.schedule, name);
    }
  }
}
