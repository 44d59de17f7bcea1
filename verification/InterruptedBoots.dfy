/** Boots that stage several sessions and that power losses interrupt: what the disk looks like between
    them, and that in the end it is that of one uninterrupted boot (apexd/apexd.cpp:2063-2298). */
module InterruptedBoots {
  import opened Basics
  import opened Packages
  import opened Storage

  /** The packages of the sessions that can be staged, by session. */
  type Plan = map<int, seq<Apex>>

  /** No two sessions bring versions of the same package. */
  ghost predicate DifferentPackages(plan: Plan) {
    forall i, j, x, y :: i in plan && j in plan && i != j && x in plan[i] && y in plan[j] ==> x.name != y.name
  }

  ghost predicate InDests(plan: Plan, n: string) {
    exists i :: i in plan && n in Dests(plan[i])
  }

  ghost predicate ObsoleteFor(dir: Dir, n: string, plan: Plan) {
    exists i :: i in plan && Obsolete(dir, n, Names(plan[i]), Dests(plan[i]))
  }

  ghost predicate Brought(plan: Plan, n: string, f: Inode) {
    exists i :: i in plan && f.Package? && f.apex in plan[i] && FileName(f.apex) == n
  }

  /** The packages of one session are in place, and no other file of theirs is left. */
  ghost predicate InPlace(dir: Dir, xs: seq<Apex>) {
    && (forall n :: n in Dests(xs) ==> Get(dir, n) == Get(Linked(map[], xs), n))
    && (forall n :: n in dir ==> !Obsolete(dir, n, Names(xs), Dests(xs)))
  }

  /** `e` is an active directory that boots on `d` may leave, with the sessions `done` in place. */
  ghost predicate PartlyStaged(d: Dir, e: Dir, plan: Plan, done: set<int>) {
    && (forall n :: n in e ==> (n in d && e[n] == d[n]) || Brought(plan, n, e[n]))
    && (forall n :: n in d && n !in e ==> InDests(plan, n) || ObsoleteFor(d, n, plan))
    && (forall i :: i in done && i in plan ==> InPlace(e, plan[i]))
  }

  ghost predicate InIds(plan: Plan, id: string) {
    exists i :: i in plan && id in Ids(plan[i])
  }

  /** The same for the hash trees. */
  ghost predicate PartlyPromoted(d: Disk, e: Disk, plan: Plan, done: set<int>) {
    && (forall id :: TreesAt(e, id) == TreesAt(d, id) ||
                     (InIds(plan, id) && id in d.newTrees && TreesAt(e, id) == (Some(d.newTrees[id]), None)))
    && (forall i, id :: i in done && i in plan && id in Ids(plan[i]) ==> id !in e.newTrees)
  }

  /** What boots on `d`, each cut anywhere, may leave besides the sessions. */
  ghost predicate Interrupted(d: Disk, e: Disk, plan: Plan, done: set<int>) {
    && e.backup == d.backup && e.decompressed == d.decompressed && (e.active.None? ==> d.active.None?)
    && PartlyStaged(Files(d.active), Files(e.active), plan, done)
    && PartlyPromoted(d, e, plan, done)
  }

  lemma NothingInterrupted(d: Disk, plan: Plan)
    ensures Interrupted(d, d, plan, {})
  { }

  // One session

  lemma {:induction false} DestsAre(xs: seq<Apex>, n: string)
    ensures n in Dests(xs) <==> exists x :: x in xs && FileName(x) == n
  { }

  lemma {:induction false} LinkedHas(xs: seq<Apex>, n: string)
    requires n in Dests(xs)
    ensures var l := Linked(map[], xs); n in l && l[n].Package? && l[n].apex in xs && FileName(l[n].apex) == n
  {
    LinkedPackage(map[], xs, n);
  }

  /** A staging that was cut is an interrupted boot with nothing done. */
  lemma {:induction false} CutInterrupts(d: Disk, e: Disk, plan: Plan, i: int)
    requires i in plan && StageCut(d, e, plan[i])
    ensures Interrupted(d, e, plan, {})
  {
    hide FileName, IsApexFile, Names, Dests, Ids, Obsolete;
    var xs, dir, cut := plan[i], Files(d.active), Files(e.active);
    forall n | n in dir && n !in cut ensures InDests(plan, n) || ObsoleteFor(dir, n, plan) {
      assert n !in Dests(xs) ==> Obsolete(dir, n, Names(xs), Dests(xs));
    }
    forall n | n in cut ensures (n in dir && cut[n] == dir[n]) || Brought(plan, n, cut[n]) { }
    forall id ensures TreesAt(e, id) == TreesAt(d, id) ||
      (InIds(plan, id) && id in d.newTrees && TreesAt(e, id) == (Some(d.newTrees[id]), None)) { }
  }

  /** A staging that was not cut puts its session in place. */
  lemma {:induction false} StagingDone(d: Disk, plan: Plan, i: int)
    requires i in plan
    ensures Interrupted(d, Staged(d, plan[i]), plan, {i})
  {
    var xs, e, dir := plan[i], Staged(d, plan[i]), Files(d.active);
    StagedIsCut(d, xs);
    CutInterrupts(d, e, plan, i);
    StagedInPlace(dir, xs);
    hide StagedDir, InPlace, Ids;
    assert Files(e.active) == StagedDir(dir, xs);
  }

  lemma {:induction false} StagedInPlace(dir: Dir, xs: seq<Apex>)
    ensures InPlace(StagedDir(dir, xs), xs)
  {
    hide FileName, IsApexFile, Linked, Prune, Obsolete, Names, Dests;
    var l := Linked(dir, xs);
    LinkedAt(dir, xs);
    LinkedAt(map[], xs);
    LinkedOverwrites(dir, map[], xs);
    PruneKeeps(l, Names(xs), Dests(xs));
    forall n | n in Dests(xs) ensures Get(StagedDir(dir, xs), n) == Get(Linked(map[], xs), n) {
      assert n in l && Get(Prune(l, Names(xs), Dests(xs)), n) == Some(l[n]);
    }
  }

  lemma PruneKeeps(dir: Dir, names: set<string>, keep: set<string>)
    ensures forall n :: n in keep && n in dir ==> Get(Prune(dir, names, keep), n) == Some(dir[n])
    ensures forall n :: n in Prune(dir, names, keep) ==> !Obsolete(Prune(dir, names, keep), n, names, keep)
  {
    hide IsApexFile;
  }

  // Boot after boot

  lemma {:induction false} DestsApart(plan: Plan, i: int, j: int, n: string)
    requires DifferentPackages(plan) && i in plan && j in plan && i != j
    ensures n in Dests(plan[i]) ==> n !in Dests(plan[j])
  {
    hide FileName;
    if n in Dests(plan[i]) && n in Dests(plan[j]) {
      var x :| x in plan[i] && FileName(x) == n;
      var y :| y in plan[j] && FileName(y) == n;
      FileNameDeterminesPackage(x, y);
    }
  }

  lemma NotObsoleteApart(plan: Plan, i: int, j: int, dir: Dir, n: string)
    requires DifferentPackages(plan) && i in plan && j in plan && i != j
    requires n in dir && dir[n].Package? && dir[n].apex in plan[i]
    ensures !Obsolete(dir, n, Names(plan[j]), Dests(plan[j]))
  {
    hide FileName, IsApexFile, Dests;
    assert forall y :: y in plan[j] ==> y.name != dir[n].apex.name;
  }

  /** A session in place stays in place while other sessions are staged. */
  lemma {:induction false} StaysInPlace(e: Dir, f: Dir, plan: Plan, rest: Plan, i: int)
    requires DifferentPackages(plan) && i in plan && InPlace(e, plan[i])
    requires rest.Keys <= plan.Keys - {i} && forall j :: j in rest ==> rest[j] == plan[j]
    requires forall n :: n in f ==> (n in e && f[n] == e[n]) || Brought(rest, n, f[n])
    requires forall n :: n in e && n !in f ==> InDests(rest, n) || ObsoleteFor(e, n, rest)
    ensures InPlace(f, plan[i])
  {
    hide FileName, IsApexFile, Dests, Linked;
    var xs := plan[i];
    forall n | n in Dests(xs) ensures Get(f, n) == Get(Linked(map[], xs), n) {
      LinkedHas(xs, n);
      DestStays(e, f, plan, rest, i, n);
    }
    forall n | n in f ensures !Obsolete(f, n, Names(xs), Dests(xs)) {
      if Brought(rest, n, f[n]) {
        var j :| j in rest && f[n].Package? && f[n].apex in rest[j] && FileName(f[n].apex) == n;
        assert forall x :: x in xs ==> x.name != f[n].apex.name;
      } else {
        assert !Obsolete(e, n, Names(xs), Dests(xs));
      }
    }
  }

  lemma {:induction false} DestStays(e: Dir, f: Dir, plan: Plan, rest: Plan, i: int, n: string)
    requires DifferentPackages(plan) && i in plan && n in Dests(plan[i])
    requires n in e && e[n].Package? && e[n].apex in plan[i]
    requires rest.Keys <= plan.Keys - {i} && forall j :: j in rest ==> rest[j] == plan[j]
    requires n in f ==> f[n] == e[n] || Brought(rest, n, f[n])
    requires n !in f ==> InDests(rest, n) || ObsoleteFor(e, n, rest)
    ensures n in f && f[n] == e[n]
  {
    hide FileName, IsApexFile, Dests, Names, Obsolete;
    forall j | j in rest ensures n !in Dests(rest[j]) && !Obsolete(e, n, Names(rest[j]), Dests(rest[j])) {
      DestsApart(plan, i, j, n);
      NotObsoleteApart(plan, i, j, e, n);
    }
    if n in f && Brought(rest, n, f[n]) {
      var j :| j in rest && f[n].Package? && f[n].apex in rest[j] && FileName(f[n].apex) == n;
      DestsAre(rest[j], n);
    }
  }

  /** Two interrupted boots are one: what the second one stages are the sessions the first has not done. */
  lemma {:induction false} InterruptedAgain(d: Disk, e: Disk, f: Disk, plan: Plan, rest: Plan, done: set<int>,
                                            more: set<int>)
    requires DifferentPackages(plan) && rest.Keys <= plan.Keys - done && forall j :: j in rest ==> rest[j] == plan[j]
    requires Interrupted(d, e, plan, done) && Interrupted(e, f, rest, more)
    requires more <= rest.Keys
    ensures Interrupted(d, f, plan, done + more)
  {
    hide PartlyPromoted, PartlyStaged;
    StagedAgain(Files(d.active), Files(e.active), Files(f.active), plan, rest, done, more);
    PromotedAgain(d, e, f, plan, rest, done, more);
  }

  lemma {:induction false} StagedAgain(d: Dir, e: Dir, f: Dir, plan: Plan, rest: Plan, done: set<int>, more: set<int>)
    requires DifferentPackages(plan) && rest.Keys <= plan.Keys - done && forall j :: j in rest ==> rest[j] == plan[j]
    requires PartlyStaged(d, e, plan, done) && PartlyStaged(e, f, rest, more) && more <= rest.Keys
    ensures PartlyStaged(d, f, plan, done + more)
  {
    hide FileName, IsApexFile, Dests, Names, InPlace;
    forall n | n in f ensures (n in d && f[n] == d[n]) || Brought(plan, n, f[n]) {
      BroughtByMore(plan, rest, n, f[n]);
    }
    forall n | n in d && n !in f ensures InDests(plan, n) || ObsoleteFor(d, n, plan) {
      if n in e {
        StillObsolete(d, e, plan, rest, n);
      }
    }
    forall i | i in done + more && i in plan ensures InPlace(f, plan[i]) {
      if i in done {
        StaysInPlace(e, f, plan, rest, i);
      }
    }
  }

  lemma BroughtByMore(plan: Plan, rest: Plan, n: string, f: Inode)
    requires rest.Keys <= plan.Keys && forall j :: j in rest ==> rest[j] == plan[j]
    ensures Brought(rest, n, f) ==> Brought(plan, n, f)
  { }

  lemma StillObsolete(d: Dir, e: Dir, plan: Plan, rest: Plan, n: string)
    requires rest.Keys <= plan.Keys && forall j :: j in rest ==> rest[j] == plan[j]
    requires n in d && n in e && (e[n] == d[n] || Brought(plan, n, e[n]))
    requires InDests(rest, n) || ObsoleteFor(e, n, rest)
    ensures InDests(plan, n) || ObsoleteFor(d, n, plan)
  {
    hide FileName, IsApexFile, Dests, Names;
    if Brought(plan, n, e[n]) {
      var i :| i in plan && e[n].Package? && e[n].apex in plan[i] && FileName(e[n].apex) == n;
      DestsAre(plan[i], n);
    } else if ObsoleteFor(e, n, rest) {
      var j :| j in rest && Obsolete(e, n, Names(rest[j]), Dests(rest[j]));
      assert Obsolete(d, n, Names(plan[j]), Dests(plan[j]));
    } else {
      var j :| j in rest && n in Dests(rest[j]);
      assert n in Dests(plan[j]);
    }
  }

  lemma {:induction false} PromotedAgain(d: Disk, e: Disk, f: Disk, plan: Plan, rest: Plan, done: set<int>,
                                         more: set<int>)
    requires rest.Keys <= plan.Keys && forall j :: j in rest ==> rest[j] == plan[j]
    requires PartlyPromoted(d, e, plan, done) && PartlyPromoted(e, f, rest, more) && more <= rest.Keys
    ensures PartlyPromoted(d, f, plan, done + more)
  {
    hide Ids;
    forall id ensures TreesAt(f, id) == TreesAt(d, id) ||
      (InIds(plan, id) && id in d.newTrees && TreesAt(f, id) == (Some(d.newTrees[id]), None))
    {
      assert TreesAt(f, id) == TreesAt(e, id) ||
        (InIds(rest, id) && id in e.newTrees && TreesAt(f, id) == (Some(e.newTrees[id]), None));
      assert TreesAt(e, id) == TreesAt(d, id) ||
        (InIds(plan, id) && id in d.newTrees && TreesAt(e, id) == (Some(d.newTrees[id]), None));
    }
    forall i, id | i in done + more && i in plan && id in Ids(plan[i]) ensures id !in f.newTrees {
      assert TreesAt(f, id) == TreesAt(e, id) ||
        (InIds(rest, id) && id in e.newTrees && TreesAt(f, id) == (Some(e.newTrees[id]), None));
    }
  }

  // The end

  /** When all sessions are in place, the disk is determined: it does not matter in which order they were
      staged, nor where the boots were cut. */
  lemma {:induction false} AllDoneDetermined(d: Disk, e: Disk, f: Disk, plan: Plan)
    requires Interrupted(d, e, plan, plan.Keys) && Interrupted(d, f, plan, plan.Keys)
    ensures Files(e.active) == Files(f.active) && e.trees == f.trees && e.newTrees == f.newTrees
  {
    hide PartlyStaged, PartlyPromoted;
    ActiveDetermined(Files(d.active), Files(e.active), Files(f.active), plan);
    TreesDetermined(d, e, f, plan);
  }

  lemma {:induction false} ActiveDetermined(d: Dir, e: Dir, f: Dir, plan: Plan)
    requires PartlyStaged(d, e, plan, plan.Keys) && PartlyStaged(d, f, plan, plan.Keys)
    ensures e == f
  {
    hide PartlyStaged;
    forall n ensures Get(e, n) == Get(f, n) {
      FileDetermined(d, e, f, plan, n);
    }
    SameMap(e, f);
  }

  lemma {:induction false} FileDetermined(d: Dir, e: Dir, f: Dir, plan: Plan, n: string)
    requires PartlyStaged(d, e, plan, plan.Keys) && PartlyStaged(d, f, plan, plan.Keys)
    ensures Get(e, n) == Get(f, n)
  {
    if InDests(plan, n) {
      var i :| i in plan && n in Dests(plan[i]);
      hide PartlyStaged;
      DestInPlace(d, e, plan, i, n);
      DestInPlace(d, f, plan, i, n);
    } else {
      OtherFile(d, e, plan, n);
      OtherFile(d, f, plan, n);
    }
  }

  lemma DestInPlace(d: Dir, e: Dir, plan: Plan, i: int, n: string)
    requires PartlyStaged(d, e, plan, plan.Keys) && i in plan && n in Dests(plan[i])
    ensures Get(e, n) == Get(Linked(map[], plan[i]), n)
  {
    hide Dests, Linked, FileName, Brought, ObsoleteFor, Obsolete;
    assert InPlace(e, plan[i]);
  }

  lemma {:induction false} OtherFile(d: Dir, e: Dir, plan: Plan, n: string)
    requires PartlyStaged(d, e, plan, plan.Keys) && !InDests(plan, n)
    ensures Get(e, n) == if n in d && !ObsoleteFor(d, n, plan) then Some(d[n]) else None
  {
    hide FileName, IsApexFile, Names, Linked;
    forall i | i in plan && n in e ensures !Obsolete(e, n, Names(plan[i]), Dests(plan[i])) {
      assert InPlace(e, plan[i]);
    }
    if n in e {
      BroughtIsDest(plan, n, e[n]);
    }
  }

  lemma BroughtIsDest(plan: Plan, n: string, f: Inode)
    ensures Brought(plan, n, f) ==> InDests(plan, n)
  {
    hide FileName;
    if i :| i in plan && f.Package? && f.apex in plan[i] && FileName(f.apex) == n {
      DestsAre(plan[i], n);
    }
  }

  lemma {:induction false} TreesDetermined(d: Disk, e: Disk, f: Disk, plan: Plan)
    requires PartlyPromoted(d, e, plan, plan.Keys) && PartlyPromoted(d, f, plan, plan.Keys)
    ensures e.trees == f.trees && e.newTrees == f.newTrees
  {
    hide Ids;
    forall id ensures TreesAt(e, id) == TreesAt(f, id) {
      TreeDetermined(d, e, plan, id);
      TreeDetermined(d, f, plan, id);
    }
    forall id ensures Get(e.trees, id) == Get(f.trees, id) && Get(e.newTrees, id) == Get(f.newTrees, id) {
      assert TreesAt(e, id) == TreesAt(f, id);
    }
    SameMap(e.trees, f.trees);
    SameMap(e.newTrees, f.newTrees);
  }

  lemma {:induction false} TreeDetermined(d: Disk, e: Disk, plan: Plan, id: string)
    requires PartlyPromoted(d, e, plan, plan.Keys)
    ensures TreesAt(e, id) ==
      if InIds(plan, id) && id in d.newTrees then (Some(d.newTrees[id]), None) else TreesAt(d, id)
  {
    hide Ids;
    if InIds(plan, id) {
      var i :| i in plan && id in Ids(plan[i]);
      assert id !in e.newTrees;
    }
  }
}
