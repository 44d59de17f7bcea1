/** The end of ActivateApexPackages: the results of the workers are counted, the activated providers of
    shared libraries contribute in order, and any failure makes the whole call fail
    (apexd/apexd.cpp:1700-1763). */
module ActivationResult {
  import opened Activation
  import opened SharedLibs

  /** What is mounted for each activated provider of shared libraries. */
  ghost predicate MountsOf(mounts: map<Job, Contributor>, results: seq<seq<Outcome>>) {
    forall job: Job :: job.providesSharedLibs && Reported(results, job, true) ==>
      && job in mounts && Distinct(Offered(mounts[job]))
      && mounts[job].version == job.version && mounts[job].mountPoint == job.MountPoint()
  }

  function ContributorsOf(jobs: seq<Job>, mounts: map<Job, Contributor>): (cs: seq<Contributor>)
    requires forall job :: job in jobs ==> job in mounts
    ensures |cs| == |jobs| && forall i :: 0 <= i < |cs| ==> cs[i] == mounts[jobs[i]]
  {
    seq(|jobs|, i requires 0 <= i < |jobs| => mounts[jobs[i]])
  }

  /** The contributions: made by the activated providers in the order of the sort, with what they did to
      the links one after the other. */
  datatype Contributions = Contributions(jobs: seq<Job>, trace: seq<Links>, oks: seq<bool>)

  ghost predicate Contributed(c: Contributions, results: seq<seq<Outcome>>, mounts: map<Job, Contributor>,
                              w: SharedLibs.World, before: Links, after: Links)
  {
    && multiset(c.jobs) == ActivatedProviders(results) && (forall job :: job in c.jobs ==> job in mounts)
    && var order := Sorted(ContributorsOf(c.jobs, mounts));
       && |c.trace| == |order| + 1 && Traced(order, w, c.trace, c.oks)
       && c.trace[0] == before && c.trace[|order|] == after
  }

  /** What makes the call fail: an activation failed, or a contribution to the shared libraries did. */
  ghost predicate ActivationFailed(results: seq<seq<Outcome>>, oks: seq<bool>) {
    (exists job :: Reported(results, job, false)) || !AllTrue(oks)
  }

  /** The call fails if and only if an activation failed or a contribution, made on the links that the
      contributions before it left, failed. */
  method FinishActivation(results: seq<seq<Outcome>>, mounts: map<Job, Contributor>, libs: SharedLibsDir,
                          w: SharedLibs.World)
    returns (activated: nat, failedActivations: nat, failed: nat, error: bool, ghost c: Contributions)
    requires MountsOf(mounts, results)
    modifies libs
    ensures activated + failedActivations == OutcomeCount(results)
    ensures failed >= failedActivations && (failed == failedActivations <==> AllTrue(c.oks))
    ensures Contributed(c, results, mounts, w, old(libs.links), libs.links)
    ensures error <==> ActivationFailed(results, c.oks)
  {
    hide Traced, Offered, Distinct, Reported, Sorted;
    var jobs: seq<Job>;
    activated, failedActivations, jobs := CollectResults(results);
    var contributors := Sorted(ContributorsOf(jobs, mounts));
    SortedIsFalling(ContributorsOf(jobs, mounts));
    forall i | 0 <= i < |contributors| ensures Distinct(Offered(contributors[i])) {
      assert contributors[i] in multiset(contributors);
      assert contributors[i] in ContributorsOf(jobs, mounts);
    }
    var failedContributions, trace, oks := libs.Populate(contributors, w);
    c := Contributions(jobs, trace, oks);
    failed := failedActivations + failedContributions;
    error := failed > 0;
  }
}
