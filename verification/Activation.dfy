/** Parallel activation: workers that drain a shared queue of APEXes, mount them and bind the latest
    version of each package (apexd/apexd.cpp:1290-1375, 1626-1763). The system moves one critical
    section of one worker at a time, so every schedule is an interleaving. */
module Activation {
  import opened Basics
  import opened Naming
  import opened MountedApexes

  datatype Job = Job(name: string, version: int, path: string, providesSharedLibs: bool) {
    function MountPoint(): string {
      PackageMountPoint(name, version)
    }
  }

  datatype Worker =
    | Idle
    | Fetched(job: Job)
    | Checked(job: Job, alreadyMounted: bool)
    | Mounted(job: Job)
    | Exited

  datatype Outcome = Outcome(job: Job, ok: bool)

  datatype System = System(
    queue: seq<Job>,
    workers: seq<Worker>,
    results: seq<seq<Outcome>>,
    db: Mounts,
    bound: map<string, string>,
    bindFailed: set<string>,
    aborted: bool)

  datatype Devices = Devices(loop: string, dm: string, hashtreeLoop: string)

  /** What the outside world contributes to one step: which APEX files open and with what version,
      whether mounting works and on which devices, and whether the bind mount works. */
  datatype World = World(fileVersions: map<string, int>, mount: Option<Devices>, bindWorks: bool)

  /** kBannedApexName. */
  const BANNED_NAMES := {"sharedlibs"}

  /** What the loop over mounted versions finds: whether this version is mounted, and whether the
      entry it saw last with this version is the latest one. */
  function FindVersion(visits: seq<(MountedApexData, bool)>, version: int, fileVersions: map<string, int>): (bool,
                       bool) {
    if visits == [] then (false, false)
    else
      var (d, latest) := visits[|visits| - 1];
      if d.fullPath in fileVersions && fileVersions[d.fullPath] == version then (true, latest)
      else FindVersion(visits[..|visits| - 1], version, fileVersions)
  }

  function Finish(s: System, w: nat, ok: bool): System
    requires w < |s.workers| == |s.results|
    requires s.workers[w].Fetched? || s.workers[w].Checked? || s.workers[w].Mounted?
  {
    s.(workers := s.workers[w := Idle],
       results := s.results[w := s.results[w] + [Outcome(s.workers[w].job, ok)]])
  }

  function MountData(job: Job, devices: Devices): MountedApexData {
    MountedApexData(Int32(job.version), devices.loop, job.path, job.MountPoint(),
        devices.dm, devices.hashtreeLoop, false, false)
  }

  /** Taking the next APEX from the queue, under the queue's lock. */
  function Fetch(s: System, w: nat): (t: System)
    requires w < |s.workers| == |s.results|
    ensures |t.workers| == |t.results| == |s.workers|
    ensures t == s.(queue := t.queue, workers := s.workers[w := t.workers[w]])
    ensures !t.workers[w].Mounted? && !t.workers[w].Checked?
  {
    if s.queue == [] then s.(workers := s.workers[w := Exited])
    else s.(queue := s.queue[1..], workers := s.workers[w := Fetched(s.queue[0])])
  }

  /** Looking for the version in the database, under the database's lock. */
  function Check(s: System, w: nat, world: World): (t: System)
    requires w < |s.workers| == |s.results| && s.workers[w].Fetched?
    ensures |t.workers| == |t.results| == |s.workers|
    ensures t == s.(workers := s.workers[w := t.workers[w]], results := t.results)
    ensures !t.workers[w].Mounted?
  {
    var job := s.workers[w].job;
    if job.name in BANNED_NAMES then Finish(s, w, false)
    else
      var (mounted, active) := FindVersion(Visits(Entries(s.db, job.name), false), job.version, world.fileVersions);
      if active && !job.providesSharedLibs then Finish(s, w, true)
      else s.(workers := s.workers[w := Checked(job, mounted)])
  }

  /** Mounting and adding to the database, under the database's lock. */
  ghost function Mount(s: System, w: nat, world: World): (t: System)
    requires w < |s.workers| == |s.results| && s.workers[w].Checked?
    ensures |t.workers| == |t.results| == |s.workers|
    ensures t.bound == s.bound && t.bindFailed == s.bindFailed && t.queue == s.queue
  {
    var job := s.workers[w].job;
    if s.workers[w].alreadyMounted then s.(workers := s.workers[w := Mounted(job)])
    else if world.mount.None? then Finish(s, w, false)
    else
      var data, entries := MountData(job, world.mount.value), Entries(s.db, job.name);
      var db := s.db[job.name := Insert(entries, data)];
      if HasKey(entries, data) || !UniqueDevices(db) then s.(aborted := true)
      else s.(db := db, workers := s.workers[w := Mounted(job)])
  }

  /** Binding the active mount point if this is the latest entry, under the database's lock. */
  function Bind(s: System, w: nat, world: World): (t: System)
    requires w < |s.workers| == |s.results| && s.workers[w].Mounted?
    ensures |t.workers| == |t.results| == |s.workers|
    ensures t.db == s.db && t.queue == s.queue && t.workers[w := Idle] == s.workers[w := Idle]
  {
    var job, entries := s.workers[w].job, Entries(s.db, s.workers[w].job.name);
    if job.providesSharedLibs then Finish(s, w, true)
    else if entries == [] then s.(aborted := true)
    else if Last(entries).fullPath != job.path then Finish(s, w, true)
    else if world.bindWorks then Finish(s.(bound := s.bound[job.name := job.MountPoint()]), w, true)
    else Finish(s.(bindFailed := s.bindFailed + {job.name}), w, false)
  }

  /** One step of worker `w`. */
  ghost function Next(s: System, w: nat, world: World): (t: System)
    requires w < |s.workers| == |s.results|
    ensures |t.workers| == |t.results| == |s.workers|
  {
    if s.aborted then s
    else match s.workers[w]
      case Idle => Fetch(s, w)
      case Fetched(_) => Check(s, w, world)
      case Checked(_, _) => Mount(s, w, world)
      case Mounted(_) => Bind(s, w, world)
      case Exited => s
  }

  datatype Turn = Turn(worker: nat, world: World)

  ghost predicate ScheduleFor(s: System, schedule: seq<Turn>) {
    |s.workers| == |s.results| && forall i :: 0 <= i < |schedule| ==> schedule[i].worker < |s.workers|
  }

  ghost function Run(s: System, schedule: seq<Turn>): (t: System)
    requires ScheduleFor(s, schedule)
    ensures |t.workers| == |t.results| == |s.workers|
  {
    if schedule == [] then s
    else
      var init := schedule[..|schedule| - 1];
      Next(Run(s, init), schedule[|schedule| - 1].worker, schedule[|schedule| - 1].world)
  }

  /** The system that ActivateApexPackages starts. */
  predicate Started(s: System, jobs: seq<Job>) {
    && s.queue == jobs && |s.workers| == |s.results| && !s.aborted && s.bindFailed == {}
    && (forall w :: 0 <= w < |s.workers| ==> s.workers[w] == Idle && s.results[w] == [])
    && (jobs != [] ==> |s.workers| > 0)
  }

  predicate AllExited(s: System) {
    forall w :: 0 <= w < |s.workers| ==> s.workers[w].Exited?
  }

  // ---------- Conservation ----------

  function JobsHeld(workers: seq<Worker>): multiset<Job> {
    if workers == [] then multiset{}
    else
      var last := workers[|workers| - 1];
      JobsHeld(workers[..|workers| - 1]) + Held(last)
  }

  function Held(w: Worker): multiset<Job> {
    if w.Idle? || w.Exited? then multiset{} else multiset{w.job}
  }

  function JobsOf(results: seq<Outcome>): seq<Job> {
    seq(|results|, i requires 0 <= i < |results| => results[i].job)
  }

  function JobsDone(results: seq<seq<Outcome>>): multiset<Job> {
    if results == [] then multiset{}
    else JobsDone(results[..|results| - 1]) + multiset(JobsOf(results[|results| - 1]))
  }

  /** Every job is in the queue, in the hands of one worker, or done, as often as it was queued; and
      a worker leaves only when the queue is empty. */
  ghost predicate Conserved(s: System, jobs: seq<Job>) {
    && multiset(s.queue) + JobsHeld(s.workers) + JobsDone(s.results) == multiset(jobs)
    && (forall w :: 0 <= w < |s.workers| && s.workers[w].Exited? ==> s.queue == [])
  }

  lemma HeldSplit(workers: seq<Worker>, n: nat)
    requires |workers| == n + 1
    ensures JobsHeld(workers) == JobsHeld(workers[..n]) + Held(workers[n])
  { }

  lemma {:induction false} HeldUpdate(workers: seq<Worker>, w: nat, p: Worker)
    requires w < |workers|
    ensures JobsHeld(workers[w := p]) + Held(workers[w]) == JobsHeld(workers) + Held(p)
  {
    var n := |workers| - 1;
    HeldSplit(workers, n);
    HeldSplit(workers[w := p], n);
    hide JobsHeld, Held;
    if w == n {
      assert workers[w := p][..n] == workers[..n];
      AddBoth(JobsHeld(workers[..n]), Held(p), JobsHeld(workers[..n]), Held(p), Held(workers[n]));
    } else {
      HeldUpdate(workers[..n], w, p);
      assert workers[w := p][..n] == workers[..n][w := p];
      AddBoth(JobsHeld(workers[..n][w := p]), Held(workers[w]), JobsHeld(workers[..n]), Held(p), Held(workers[n]));
    }
  }

  lemma AddBoth(a: multiset<Job>, b: multiset<Job>, c: multiset<Job>, d: multiset<Job>, l: multiset<Job>)
    requires a + b == c + d
    ensures (a + l) + b == (c + l) + d
    ensures (a + b) + l == (a + l) + b
  {
    assert (a + l) + b == (a + b) + l;
    assert (c + l) + d == (c + d) + l;
  }

  lemma Cancel(a: multiset<Job>, b: multiset<Job>, x: multiset<Job>)
    requires a + x == b + x
    ensures a == b
  {
    forall j ensures a[j] == b[j] {
      assert (a + x)[j] == (b + x)[j];
    }
  }

  lemma {:induction false} DoneUpdate(results: seq<seq<Outcome>>, w: nat, o: Outcome)
    requires w < |results|
    ensures JobsDone(results[w := results[w] + [o]]) == JobsDone(results) + multiset{o.job}
  {
    var n := |results| - 1;
    var updated := results[w := results[w] + [o]];
    if w == n {
      assert updated[..n] == results[..n];
      assert JobsOf(results[n] + [o]) == JobsOf(results[n]) + [o.job];
    } else {
      DoneUpdate(results[..n], w, o);
      assert updated[..n] == results[..n][w := results[..n][w] + [o]];
    }
  }

  /** The step from `s` to `t` finishes the job of worker `w`. */
  ghost predicate Finishes(s: System, t: System, w: nat)
    requires w < |s.workers| == |s.results|
  {
    && Held(s.workers[w]) != multiset{} && t.queue == s.queue && t.workers == s.workers[w := Idle]
    && exists ok :: t.results == FinishedResults(s, w, ok)
  }

  function FinishedResults(s: System, w: nat, ok: bool): seq<seq<Outcome>>
    requires w < |s.workers| == |s.results| && Held(s.workers[w]) != multiset{}
  {
    s.results[w := s.results[w] + [Outcome(s.workers[w].job, ok)]]
  }

  /** The step from `s` to `t` moves worker `w` on with the same job. */
  ghost predicate Proceeds(s: System, t: System, w: nat)
    requires w < |s.workers|
  {
    && |t.workers| == |s.workers| && t.queue == s.queue && t.results == s.results
    && t.workers == s.workers[w := t.workers[w]]
    && !s.workers[w].Idle? && !s.workers[w].Exited? && !t.workers[w].Idle? && !t.workers[w].Exited?
    && t.workers[w].job == s.workers[w].job
  }

  lemma FinishFinishes(s: System, w: nat, ok: bool)
    requires w < |s.workers| == |s.results|
    requires s.workers[w].Fetched? || s.workers[w].Checked? || s.workers[w].Mounted?
    ensures Finishes(s, Finish(s, w, ok), w)
  {
    assert Finish(s, w, ok).results == FinishedResults(s, w, ok);
  }

  /** What one step can do to the queue, the workers and the results. */
  lemma {:induction false} NextShape(s: System, w: nat, world: World)
    requires w < |s.workers| == |s.results|
    ensures var t := Next(s, w, world);
      || (t.queue == s.queue && t.results == s.results && t.workers == s.workers)
      || (s.workers[w].Idle? && s.queue == [] && t == s.(workers := s.workers[w := Exited]))
      || (s.workers[w].Idle? && s.queue != [] &&
          t == s.(queue := s.queue[1..], workers := s.workers[w := Fetched(s.queue[0])]))
      || Proceeds(s, t, w)
      || Finishes(s, t, w)
  {
    hide Insert, HasKey, UniqueDevices, FindVersion, Visits, Entries, Finishes;
    if s.workers[w].Fetched? || s.workers[w].Checked? || s.workers[w].Mounted? {
      FinishFinishes(s, w, true);
      FinishFinishes(s, w, false);
      if s.workers[w].Mounted? {
        BindShape(s, w, world);
      }
    }
  }

  lemma BindShape(s: System, w: nat, world: World)
    requires w < |s.workers| == |s.results| && s.workers[w].Mounted?
    ensures var t := Bind(s, w, world);
      (t.queue == s.queue && t.results == s.results && t.workers == s.workers) || Finishes(s, t, w)
  {
    var t := Bind(s, w, world);
    if t.workers != s.workers {
      assert t.results == FinishedResults(s, w, true) || t.results == FinishedResults(s, w, false);
    }
  }

  function Accounted(s: System): multiset<Job> {
    multiset(s.queue) + JobsHeld(s.workers) + JobsDone(s.results)
  }

  lemma MoveOne(q: multiset<Job>, h: multiset<Job>, h': multiset<Job>, d: multiset<Job>, x: multiset<Job>)
    requires h' + x == h
    ensures q + h' + (d + x) == q + h + d
  {
    assert q + h' + (d + x) == q + (h' + x) + d;
  }

  lemma FinishAccounts(s: System, t: System, w: nat, ok: bool)
    requires w < |s.workers| == |s.results| && Held(s.workers[w]) != multiset{}
    requires t.queue == s.queue && t.workers == s.workers[w := Idle]
    requires t.results == s.results[w := s.results[w] + [Outcome(s.workers[w].job, ok)]]
    ensures Accounted(t) == Accounted(s)
  {
    hide JobsHeld, JobsDone;
    DoneUpdate(s.results, w, Outcome(s.workers[w].job, ok));
    HeldUpdate(s.workers, w, Idle);
    MoveOne(multiset(s.queue), JobsHeld(s.workers), JobsHeld(t.workers), JobsDone(s.results), Held(s.workers[w]));
  }

  lemma FetchAccounts(s: System, w: nat)
    requires w < |s.workers| && s.workers[w].Idle? && s.queue != []
    ensures Accounted(s.(queue := s.queue[1..], workers := s.workers[w := Fetched(s.queue[0])])) == Accounted(s)
  {
    hide JobsHeld, JobsDone;
    var x := multiset{s.queue[0]};
    HeldUpdate(s.workers, w, Fetched(s.queue[0]));
    assert s.queue == [s.queue[0]] + s.queue[1..];
    assert multiset(s.queue) == multiset(s.queue[1..]) + x;
    AddBoth(multiset(s.queue[1..]), JobsHeld(s.workers), multiset(s.queue[1..]), JobsHeld(s.workers), x);
    assert multiset(s.queue[1..]) + (JobsHeld(s.workers) + x) == multiset(s.queue[1..]) + JobsHeld(s.workers) + x;
  }

  lemma PhaseAccounts(s: System, t: System, w: nat)
    requires w < |s.workers| == |t.workers| && Held(s.workers[w]) == Held(t.workers[w])
    requires t.queue == s.queue && t.results == s.results && t.workers == s.workers[w := t.workers[w]]
    ensures Accounted(t) == Accounted(s)
  {
    hide JobsHeld, JobsDone;
    HeldUpdate(s.workers, w, t.workers[w]);
    Cancel(JobsHeld(t.workers), JobsHeld(s.workers), Held(s.workers[w]));
  }

  lemma {:induction false} NextAccounts(s: System, w: nat, world: World)
    requires w < |s.workers| == |s.results|
    ensures Accounted(Next(s, w, world)) == Accounted(s)
  {
    NextShape(s, w, world);
    var t := Next(s, w, world);
    hide Next, Accounted;
    if t.queue == s.queue && t.results == s.results && t.workers == s.workers {
      SameAccounts(s, t);
    } else if Finishes(s, t, w) {
      var ok :| t.results == FinishedResults(s, w, ok);
      FinishAccounts(s, t, w, ok);
    } else if Proceeds(s, t, w) {
      PhaseAccounts(s, t, w);
    } else if s.queue != [] {
      FetchAccounts(s, w);
    } else {
      PhaseAccounts(s, t, w);
    }
  }

  lemma SameAccounts(s: System, t: System)
    requires t.queue == s.queue && t.results == s.results && t.workers == s.workers
    ensures Accounted(t) == Accounted(s)
  { }

  lemma {:induction false} NextConserves(s: System, w: nat, world: World, jobs: seq<Job>)
    requires w < |s.workers| == |s.results| && Conserved(s, jobs)
    ensures Conserved(Next(s, w, world), jobs)
  {
    NextAccounts(s, w, world);
    NextShape(s, w, world);
    hide Next, JobsHeld, JobsDone;
  }

  lemma {:induction false} StartedConserves(s: System, jobs: seq<Job>)
    requires Started(s, jobs)
    ensures Conserved(s, jobs)
  {
    NoneHeld(s.workers);
    NoneDone(s.results);
  }

  lemma {:induction false} NoneHeld(workers: seq<Worker>)
    requires forall w :: 0 <= w < |workers| ==> workers[w].Idle? || workers[w].Exited?
    ensures JobsHeld(workers) == multiset{}
  {
    if workers != [] {
      NoneHeld(workers[..|workers| - 1]);
    }
  }

  lemma {:induction false} NoneDone(results: seq<seq<Outcome>>)
    requires forall w :: 0 <= w < |results| ==> results[w] == []
    ensures JobsDone(results) == multiset{}
  {
    if results != [] {
      NoneDone(results[..|results| - 1]);
    }
  }

  lemma {:induction false} RunConserves(s: System, schedule: seq<Turn>, jobs: seq<Job>)
    requires ScheduleFor(s, schedule) && Started(s, jobs)
    ensures Conserved(Run(s, schedule), jobs)
  {
    if schedule == [] {
      StartedConserves(s, jobs);
    } else {
      var n := |schedule| - 1;
      RunConserves(s, schedule[..n], jobs);
      NextConserves(Run(s, schedule[..n]), schedule[n].worker, schedule[n].world, jobs);
    }
  }

  /** Whatever the number of workers and the schedule, when all workers have left, every queued APEX
      has been processed exactly once. */
  lemma {:induction false} EveryJobDoneOnce(s: System, schedule: seq<Turn>, jobs: seq<Job>)
    requires ScheduleFor(s, schedule) && Started(s, jobs) && AllExited(Run(s, schedule))
    ensures JobsDone(Run(s, schedule).results) == multiset(jobs)
  {
    var t := Run(s, schedule);
    RunConserves(s, schedule, jobs);
    NoneHeld(t.workers);
    if |t.workers| > 0 {
      assert t.workers[0].Exited?;
    } else {
      NoJobsNoWorkers(s, schedule);
    }
  }

  lemma {:induction false} NoJobsNoWorkers(s: System, schedule: seq<Turn>)
    requires ScheduleFor(s, schedule) && |s.workers| == 0
    ensures Run(s, schedule) == s
  {
    if schedule != [] && schedule[0].worker < |s.workers| {
      assert false;
    }
  }

  // ---------- Collecting the results ----------

  function OutcomeCount(results: seq<seq<Outcome>>): nat {
    if results == [] then 0 else OutcomeCount(results[..|results| - 1]) + |results[|results| - 1]|
  }

  lemma {:induction false} OutcomesAreJobs(results: seq<seq<Outcome>>)
    ensures OutcomeCount(results) == |JobsDone(results)|
  {
    if results != [] {
      OutcomesAreJobs(results[..|results| - 1]);
    }
  }

  /** When all workers have left there is one result for every APEX queued. */
  lemma {:induction false} OneResultPerJob(s: System, schedule: seq<Turn>, jobs: seq<Job>)
    requires ScheduleFor(s, schedule) && Started(s, jobs) && AllExited(Run(s, schedule))
    ensures OutcomeCount(Run(s, schedule).results) == |jobs|
  {
    EveryJobDoneOnce(s, schedule, jobs);
    OutcomesAreJobs(Run(s, schedule).results);
  }

  ghost predicate Reported(results: seq<seq<Outcome>>, job: Job, ok: bool) {
    exists w, i :: 0 <= w < |results| && 0 <= i < |results[w]| && results[w][i] == Outcome(job, ok)
  }

  /** The counting loop of ActivateApexPackages: takes the results worker by worker, counts them, and
      collects the activated APEXes that provide shared libraries. */
  method CollectResults(results: seq<seq<Outcome>>) returns (activated: nat, failed: nat, sharedLibs: seq<Job>)
    ensures activated + failed == OutcomeCount(results)
    ensures failed == 0 <==> forall job :: !Reported(results, job, false)
    ensures forall job :: job in sharedLibs <==> job.providesSharedLibs && Reported(results, job, true)
    ensures multiset(sharedLibs) == ActivatedProviders(results)
  {
    hide ProvidersIn;
    activated, failed, sharedLibs := 0, 0, [];
    for w := 0 to |results|
      invariant activated + failed == OutcomeCount(results[..w])
      invariant failed == 0 <==> forall v :: 0 <= v < w ==> AllOk(results[v])
      invariant multiset(sharedLibs) == ActivatedProviders(results[..w])
    {
      assert results[..w + 1][..w] == results[..w];
      var ok, bad, providers := CollectOne(results[w]);
      activated, failed, sharedLibs := activated + ok, failed + bad, sharedLibs + providers;
    }
    assert results[..|results|] == results;
    FailureReported(results, failed == 0);
    forall job ensures job in sharedLibs <==> job.providesSharedLibs && Reported(results, job, true) {
      ProvidersAreReported(results, job);
      assert job in sharedLibs <==> job in multiset(sharedLibs);
    }
  }

  predicate AllOk(outcomes: seq<Outcome>) {
    forall i :: 0 <= i < |outcomes| ==> outcomes[i].ok
  }

  /** The inner loop: the results of one worker. */
  method CollectOne(outcomes: seq<Outcome>) returns (activated: nat, failed: nat, sharedLibs: seq<Job>)
    ensures activated + failed == |outcomes|
    ensures failed == 0 <==> AllOk(outcomes)
    ensures multiset(sharedLibs) == ProvidersIn(outcomes)
  {
    hide ProvidersIn, AllOk;
    activated, failed, sharedLibs := 0, 0, [];
    NothingIn();
    for k := 0 to |outcomes|
      invariant activated + failed == k
      invariant failed == 0 <==> AllOk(outcomes[..k])
      invariant multiset(sharedLibs) == ProvidersIn(outcomes[..k])
    {
      var o := outcomes[k];
      OneMoreOutcome(outcomes, k);
      if o.ok {
        activated := activated + 1;
        if o.job.providesSharedLibs {
          sharedLibs := sharedLibs + [o.job];
        }
      } else {
        failed := failed + 1;
      }
    }
    assert outcomes[..|outcomes|] == outcomes;
  }

  lemma NothingIn()
    ensures ProvidersIn([]) == multiset{} && AllOk([])
  { }

  lemma OneMoreOutcome(outcomes: seq<Outcome>, k: nat)
    requires k < |outcomes|
    ensures AllOk(outcomes[..k + 1]) <==> AllOk(outcomes[..k]) && outcomes[k].ok
    ensures ProvidersIn(outcomes[..k + 1]) ==
      ProvidersIn(outcomes[..k]) +
        if outcomes[k].ok && outcomes[k].job.providesSharedLibs then multiset{outcomes[k].job} else multiset{}
  {
    assert outcomes[..k + 1][..k] == outcomes[..k];
  }

  /** The providers of shared libraries reported as activated, as often as they were reported. */
  function ActivatedProviders(results: seq<seq<Outcome>>): multiset<Job> {
    if results == [] then multiset{}
    else ActivatedProviders(results[..|results| - 1]) + ProvidersIn(results[|results| - 1])
  }

  function ProvidersIn(outcomes: seq<Outcome>): multiset<Job> {
    if outcomes == [] then multiset{}
    else
      var o := outcomes[|outcomes| - 1];
      ProvidersIn(outcomes[..|outcomes| - 1]) + if o.ok && o.job.providesSharedLibs then multiset{o.job} else multiset{}
  }

  lemma {:induction false} ProvidersInAre(outcomes: seq<Outcome>, job: Job)
    ensures job in ProvidersIn(outcomes) <==> job.providesSharedLibs && Outcome(job, true) in outcomes
  {
    if outcomes != [] {
      ProvidersInAre(outcomes[..|outcomes| - 1], job);
      assert outcomes == outcomes[..|outcomes| - 1] + [outcomes[|outcomes| - 1]];
    }
  }

  lemma {:induction false} ProvidersAreReported(results: seq<seq<Outcome>>, job: Job)
    ensures job in ActivatedProviders(results) <==> job.providesSharedLibs && Reported(results, job, true)
  {
    hide Reported, ProvidersIn;
    if results == [] {
      ReportedByWorker(results, job);
    } else {
      var n := |results| - 1;
      ProvidersAreReported(results[..n], job);
      ProvidersInAre(results[n], job);
      ReportedByWorker(results[..n], job);
      ReportedByWorker(results, job);
    }
  }

  lemma {:induction false} ReportedByWorker(results: seq<seq<Outcome>>, job: Job)
    ensures Reported(results, job, true) <==> exists w :: 0 <= w < |results| && Outcome(job, true) in results[w]
  {
    if w :| 0 <= w < |results| && Outcome(job, true) in results[w] {
      var i :| 0 <= i < |results[w]| && results[w][i] == Outcome(job, true);
    }
  }

  lemma FailureReported(results: seq<seq<Outcome>>, allOk: bool)
    requires allOk <==> forall v :: 0 <= v < |results| ==> AllOk(results[v])
    ensures allOk <==> forall job :: !Reported(results, job, false)
  {
    if !allOk {
      var v :| 0 <= v < |results| && !AllOk(results[v]);
      var i :| 0 <= i < |results[v]| && !results[v][i].ok;
      assert results[v][i] == Outcome(results[v][i].job, false);
      assert Reported(results, results[v][i].job, false);
    }
  }

  // ---------- Termination ----------

  function Rank(w: Worker): nat {
    match w
    case Idle => 1
    case Fetched(_) => 4
    case Checked(_, _) => 3
    case Mounted(_) => 2
    case Exited => 0
  }

  function Ranks(workers: seq<Worker>): nat {
    if workers == [] then 0 else Ranks(workers[..|workers| - 1]) + Rank(workers[|workers| - 1])
  }

  function WorkLeft(s: System): nat {
    5 * |s.queue| + Ranks(s.workers)
  }

  /** A step of a worker that has not left. */
  predicate Productive(s: System, t: Turn) {
    t.worker < |s.workers| && !s.aborted && !s.workers[t.worker].Exited?
  }

  lemma {:induction false} RanksUpdate(workers: seq<Worker>, w: nat, p: Worker)
    requires w < |workers|
    ensures Ranks(workers[w := p]) == Ranks(workers) - Rank(workers[w]) + Rank(p)
  {
    var n := |workers| - 1;
    if w == n {
      assert workers[w := p][..n] == workers[..n];
    } else {
      RanksUpdate(workers[..n], w, p);
      assert workers[w := p][..n] == workers[..n][w := p];
    }
  }

  lemma {:induction false} StepUsesWork(s: System, t: Turn)
    requires |s.workers| == |s.results| && Productive(s, t)
    ensures Next(s, t.worker, t.world).aborted || WorkLeft(Next(s, t.worker, t.world)) < WorkLeft(s)
  {
    hide Insert, HasKey, UniqueDevices, FindVersion, Visits, Entries;
    var next := Next(s, t.worker, t.world);
    RanksUpdate(s.workers, t.worker, next.workers[t.worker]);
    assert next.workers == s.workers[t.worker := next.workers[t.worker]];
  }

  /** Workers terminate: no schedule has more productive steps than the work at the start, plus one
      that aborts. */
  lemma {:induction false} SchedulesAreFinite(s: System, schedule: seq<Turn>)
    requires ScheduleFor(s, schedule)
    requires forall i :: 0 <= i < |schedule| ==> Productive(Run(s, schedule[..i]), schedule[i])
    ensures |schedule| <= WorkLeft(s) + 1
    ensures !Run(s, schedule).aborted ==> |schedule| + WorkLeft(Run(s, schedule)) <= WorkLeft(s)
  {
    if schedule != [] {
      var n := |schedule| - 1;
      var init := schedule[..n];
      forall i | 0 <= i < n ensures Productive(Run(s, init[..i]), init[i]) {
        assert init[..i] == schedule[..i];
      }
      SchedulesAreFinite(s, init);
      StepUsesWork(Run(s, init), schedule[n]);
    }
  }

  // ---------- The active mount is the latest one ----------

  /** Jobs are told apart by path, and none of package `name` provides shared libraries. */
  predicate Bindable(jobs: seq<Job>, name: string) {
    forall j :: j in jobs && j.name == name ==> !j.providesSharedLibs
  }

  predicate PathsDiffer(jobs: seq<Job>) {
    forall j, k :: j in jobs && k in jobs && j.name == k.name && j.path == k.path ==> j == k
  }

  /** A worker has mounted the latest entry of `name` and has yet to bind it. */
  ghost predicate BindPending(s: System, name: string)
    requires Entries(s.db, name) != []
  {
    exists w :: 0 <= w < |s.workers| && s.workers[w].Mounted? && !s.workers[w].job.providesSharedLibs &&
      s.workers[w].job.name == name && s.workers[w].job.path == Last(Entries(s.db, name)).fullPath
  }

  ghost predicate BoundToLatest(s: System, name: string) {
    Entries(s.db, name) != [] && name !in s.bindFailed ==>
      Get(s.bound, name) == Some(Last(Entries(s.db, name)).mountPoint) || BindPending(s, name)
  }

  ghost predicate JobsKnown(s: System, jobs: seq<Job>) {
    && (forall i :: 0 <= i < |s.queue| ==> s.queue[i] in jobs)
    && (forall w :: 0 <= w < |s.workers| && !s.workers[w].Idle? && !s.workers[w].Exited? ==> s.workers[w].job in jobs)
  }

  /** Whoever found, made or reported a mount has its package in the database. */
  ghost predicate MountsRecorded(s: System) {
    && (forall w :: 0 <= w < |s.workers| && s.workers[w].Mounted? ==> Entries(s.db, s.workers[w].job.name) != [])
    && (forall w :: 0 <= w < |s.workers| && s.workers[w].Checked? && s.workers[w].alreadyMounted ==>
          Entries(s.db, s.workers[w].job.name) != [])
    && (forall w, i :: 0 <= w < |s.results| && 0 <= i < |s.results[w]| && s.results[w][i].ok ==>
          Entries(s.db, s.results[w][i].job.name) != [])
  }

  /** What the binding argument needs to know about the rest of the state. */
  ghost predicate Consistent(s: System, jobs: seq<Job>) {
    |s.workers| == |s.results| && JobsKnown(s, jobs) && MountsRecorded(s) && SoundDb(s.db, jobs)
  }

  /** Entries are in order, and an entry with the path of a job has the mount point of that job. */
  ghost predicate SoundDb(db: Mounts, jobs: seq<Job>) {
    && (forall n :: n in db ==> Ascending(db[n]))
    && (forall n, d, j :: n in db && d in db[n] && j in jobs && j.name == n && j.path == d.fullPath ==>
          d.mountPoint == j.MountPoint())
  }

  lemma {:induction false} InsertMembers(s: seq<MountedApexData>, x: MountedApexData)
    ensures forall d :: d in Insert(s, x) <==> d in s || d == x
    ensures Insert(s, x) != [] && (Last(Insert(s, x)) == x || (s != [] && Last(Insert(s, x)) == Last(s)))
  {
    hide Less;
    if s != [] {
      InsertMembers(s[..|s| - 1], x);
      assert s == s[..|s| - 1] + [s[|s| - 1]];
    }
  }

  lemma {:induction false} SoundAfterAdd(db: Mounts, jobs: seq<Job>, job: Job, devices: Devices)
    requires SoundDb(db, jobs) && PathsDiffer(jobs) && job in jobs
    requires !HasKey(Entries(db, job.name), MountData(job, devices))
    ensures SoundDb(db[job.name := Insert(Entries(db, job.name), MountData(job, devices))], jobs)
  {
    hide Less, HasKey, Insert;
    var entries, data := Entries(db, job.name), MountData(job, devices);
    InsertKeepsOrder(entries, data);
    InsertMembers(entries, data);
  }

  lemma {:induction false} FoundIsEntry(s: seq<MountedApexData>, version: int, files: map<string, int>)
    ensures FindVersion(Visits(s, false), version, files).0 || FindVersion(Visits(s, false), version, files).1 ==>
      s != []
  { }

  /** A step either leaves the database alone or adds the mount of the worker's job. */
  lemma {:induction false} NextDb(s: System, w: nat, world: World, jobs: seq<Job>)
    requires w < |s.workers| == |s.results|
    ensures Next(s, w, world).db == s.db ||
      (s.workers[w].Checked? && world.mount.Some? &&
       var job := s.workers[w].job; var data := MountData(job, world.mount.value);
       !HasKey(Entries(s.db, job.name), data) &&
        Next(s, w, world).db == s.db[job.name := Insert(Entries(s.db, job.name), data)])
    ensures forall n :: Entries(s.db, n) != [] ==> Entries(Next(s, w, world).db, n) != []
    ensures SoundDb(s.db, jobs) && PathsDiffer(jobs) && JobsKnown(s, jobs) ==> SoundDb(Next(s, w, world).db, jobs)
  {
    hide Insert, HasKey, UniqueDevices, FindVersion, Visits, SoundDb;
    if s.workers[w].Checked? && world.mount.Some? {
      var job := s.workers[w].job;
      InsertMembers(Entries(s.db, job.name), MountData(job, world.mount.value));
      if SoundDb(s.db, jobs) && PathsDiffer(jobs) && JobsKnown(s, jobs) &&
         !HasKey(Entries(s.db, job.name), MountData(job, world.mount.value)) {
        SoundAfterAdd(s.db, jobs, job, world.mount.value);
      }
    }
  }

  lemma {:induction false} NextJobsKnown(s: System, w: nat, world: World, jobs: seq<Job>)
    requires w < |s.workers| == |s.results| && JobsKnown(s, jobs)
    ensures JobsKnown(Next(s, w, world), jobs)
  {
    NextShape(s, w, world);
    hide Next;
  }

  /** Records survive a step that keeps packages in the database, if what the stepping worker claims
      next is recorded. */
  lemma {:induction false} RecordsKept(s: System, t: System, w: nat, extra: seq<Outcome>)
    requires w < |s.workers| == |s.results| == |t.workers| && MountsRecorded(s)
    requires forall n :: Entries(s.db, n) != [] ==> Entries(t.db, n) != []
    requires t.workers[w := Idle] == s.workers[w := Idle]
    requires t.results == s.results[w := s.results[w] + extra]
    requires forall i :: 0 <= i < |extra| && extra[i].ok ==> Entries(t.db, extra[i].job.name) != []
    requires t.workers[w].Mounted? || (t.workers[w].Checked? && t.workers[w].alreadyMounted) ==>
      Entries(t.db, t.workers[w].job.name) != []
    ensures MountsRecorded(t)
  {
    forall v | 0 <= v < |t.workers| && v != w ensures t.workers[v] == s.workers[v] {
      assert t.workers[w := Idle][v] == s.workers[w := Idle][v];
    }
    forall v, i | 0 <= v < |t.results| && 0 <= i < |t.results[v]| && t.results[v][i].ok
      ensures Entries(t.db, t.results[v][i].job.name) != []
    {
      if i < |s.results[v]| {
        assert t.results[v][i] == s.results[v][i];
      } else {
        assert t.results[v][i] == extra[i - |s.results[v]|];
      }
    }
  }

  lemma {:induction false} NextMountsRecorded(s: System, w: nat, world: World, jobs: seq<Job>)
    requires w < |s.workers| == |s.results| && MountsRecorded(s)
    ensures MountsRecorded(Next(s, w, world))
  {
    hide Insert, HasKey, UniqueDevices, FindVersion, Visits, SoundDb;
    NextDb(s, w, world, jobs);
    var t := Next(s, w, world);
    if s.workers[w].Fetched? {
      FoundIsEntry(Entries(s.db, s.workers[w].job.name), s.workers[w].job.version, world.fileVersions);
    }
    if s.workers[w].Checked? && world.mount.Some? {
      InsertMembers(Entries(s.db, s.workers[w].job.name), MountData(s.workers[w].job, world.mount.value));
    }
    var extra := if t.results == s.results then [] else [t.results[w][|s.results[w]|]];
    assert s.results[w] + [] == s.results[w];
    assert t.results == s.results[w := s.results[w] + extra];
    hide MountsRecorded;
    RecordsKept(s, t, w, extra);
  }

  lemma {:induction false} NextConsistent(s: System, w: nat, world: World, jobs: seq<Job>)
    requires w < |s.workers| && Consistent(s, jobs) && PathsDiffer(jobs)
    ensures Consistent(Next(s, w, world), jobs)
  {
    NextDb(s, w, world, jobs);
    NextJobsKnown(s, w, world, jobs);
    NextMountsRecorded(s, w, world, jobs);
    hide Next, SoundDb, JobsKnown, MountsRecorded, PathsDiffer;
  }

  lemma {:induction false} PendingElsewhere(s: System, t: System, w: nat, name: string)
    requires w < |s.workers| == |t.workers| && Entries(s.db, name) != [] && Entries(t.db, name) != []
    requires Last(Entries(t.db, name)) == Last(Entries(s.db, name)) && t.workers[w := Idle] == s.workers[w := Idle]
    requires BindPending(s, name)
    requires t.workers[w] == s.workers[w] || !s.workers[w].Mounted? || s.workers[w].job.providesSharedLibs ||
      s.workers[w].job.name != name || s.workers[w].job.path != Last(Entries(s.db, name)).fullPath
    ensures BindPending(t, name)
  {
    var v :| 0 <= v < |s.workers| && s.workers[v].Mounted? && !s.workers[v].job.providesSharedLibs &&
      s.workers[v].job.name == name && s.workers[v].job.path == Last(Entries(s.db, name)).fullPath;
    if v != w {
      assert t.workers[w := Idle][v] == s.workers[w := Idle][v];
    }
    assert t.workers[v] == s.workers[v];
  }

  /** A new latest entry comes with a worker that will bind it. */
  lemma {:induction false} MountKeepsBound(s: System, w: nat, world: World, jobs: seq<Job>, name: string)
    requires w < |s.workers| && s.workers[w].Checked? && Consistent(s, jobs) && Bindable(jobs, name)
    requires BoundToLatest(s, name)
    ensures BoundToLatest(Mount(s, w, world), name)
  {
    hide Insert, HasKey, UniqueDevices, Ascending, SoundDb, MountsRecorded;
    var t, job := Mount(s, w, world), s.workers[w].job;
    if world.mount.Some? {
      InsertMembers(Entries(s.db, job.name), MountData(job, world.mount.value));
    }
    if Entries(t.db, name) != [] {
      if t.workers[w].Mounted? && job.name == name && Last(Entries(t.db, name)).fullPath == job.path {
        assert BindPending(t, name);
      } else if Entries(s.db, name) != [] && BindPending(s, name) {
        PendingElsewhere(s, t, w, name);
      }
    }
  }

  /** Binding the latest entry binds its mount point. */
  lemma {:induction false} BindKeepsBound(s: System, w: nat, world: World, jobs: seq<Job>, name: string)
    requires w < |s.workers| && s.workers[w].Mounted? && !s.aborted && Consistent(s, jobs) && BoundToLatest(s, name)
    ensures BoundToLatest(Bind(s, w, world), name)
  {
    hide MountsRecorded;
    var t, job := Bind(s, w, world), s.workers[w].job;
    if Entries(s.db, name) != [] && BindPending(s, name) {
      if job.providesSharedLibs || job.name != name || job.path != Last(Entries(s.db, name)).fullPath || t.aborted {
        PendingElsewhere(s, t, w, name);
      }
    }
  }

  lemma {:induction false} NextBound(s: System, w: nat, world: World, jobs: seq<Job>, name: string)
    requires w < |s.workers| == |s.results| && Consistent(s, jobs) && Bindable(jobs, name)
    requires BoundToLatest(s, name)
    ensures BoundToLatest(Next(s, w, world), name)
  {
    hide Fetch, Check, Mount, Bind, Consistent, Bindable;
    if s.aborted || s.workers[w].Exited? {
    } else if s.workers[w].Checked? {
      MountKeepsBound(s, w, world, jobs, name);
    } else if s.workers[w].Mounted? {
      BindKeepsBound(s, w, world, jobs, name);
    } else if Entries(s.db, name) != [] && BindPending(s, name) {
      PendingElsewhere(s, Next(s, w, world), w, name);
    }
  }

  lemma {:induction false} RunBound(s: System, schedule: seq<Turn>, jobs: seq<Job>, name: string)
    requires ScheduleFor(s, schedule) && Started(s, jobs) && SoundDb(s.db, jobs) && PathsDiffer(jobs)
    requires Bindable(jobs, name) && BoundToLatest(s, name)
    ensures Consistent(Run(s, schedule), jobs) && BoundToLatest(Run(s, schedule), name)
  {
    hide Next, BoundToLatest, Bindable, PathsDiffer, SoundDb;
    if schedule != [] {
      var n := |schedule| - 1;
      RunBound(s, schedule[..n], jobs, name);
      var t := Run(s, schedule[..n]);
      NextConsistent(t, schedule[n].worker, schedule[n].world, jobs);
      NextBound(t, schedule[n].worker, schedule[n].world, jobs, name);
    }
  }

  /** Under every interleaving, once all workers have left without a bind failure for the package,
      /apex/<name> is bound to the mount point of the greatest entry. */
  lemma {:induction false} LatestIsBound(s: System, schedule: seq<Turn>, jobs: seq<Job>, name: string)
    requires ScheduleFor(s, schedule) && Started(s, jobs) && SoundDb(s.db, jobs) && PathsDiffer(jobs)
    requires Bindable(jobs, name) && BoundToLatest(s, name)
    requires AllExited(Run(s, schedule)) && name !in Run(s, schedule).bindFailed
    requires Entries(Run(s, schedule).db, name) != []
    ensures var t := Run(s, schedule); var entries := Entries(t.db, name);
      && Get(t.bound, name) == Some(Last(entries).mountPoint)
      && forall d :: d in entries ==> d == Last(entries) || Less(d, Last(entries))
  {
    hide Next, Less;
    RunBound(s, schedule, jobs, name);
    var entries := Entries(Run(s, schedule).db, name);
    forall d | d in entries ensures d == Last(entries) || Less(d, Last(entries)) {
      LastIsGreatest(entries, d);
    }
  }

  /** A job reported as activated has its package in the database. */
  lemma {:induction false} ActivatedIsMounted(s: System, schedule: seq<Turn>, jobs: seq<Job>, w: nat, i: nat)
    requires ScheduleFor(s, schedule) && Started(s, jobs) && SoundDb(s.db, jobs) && PathsDiffer(jobs)
    requires w < |Run(s, schedule).results| && i < |Run(s, schedule).results[w]| && Run(s, schedule).results[w][i].ok
    ensures Entries(Run(s, schedule).db, Run(s, schedule).results[w][i].job.name) != []
  {
    hide Next;
    RunConsistent(s, schedule, jobs);
  }

  lemma {:induction false} RunConsistent(s: System, schedule: seq<Turn>, jobs: seq<Job>)
    requires ScheduleFor(s, schedule) && Started(s, jobs) && SoundDb(s.db, jobs) && PathsDiffer(jobs)
    ensures Consistent(Run(s, schedule), jobs)
  {
    hide Next, PathsDiffer, SoundDb;
    if schedule != [] {
      var n := |schedule| - 1;
      RunConsistent(s, schedule[..n], jobs);
      NextConsistent(Run(s, schedule[..n]), schedule[n].worker, schedule[n].world, jobs);
    }
  }
}
