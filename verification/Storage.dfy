/** What apexd keeps on disk across reboots, the atomic writes it makes, and what staging and
    backing up mean as functions of directory contents. */
module Storage {
  import opened Basics
  import opened Packages

  /** A regular file in an APEX directory; `Unreadable` is one that ApexFile::Open rejects. */
  datatype Inode = Package(apex: Apex) | Unreadable

  type Dir = map<string, Inode>

  datatype State =
    | UNKNOWN | VERIFIED | STAGED | ACTIVATED | ACTIVATION_FAILED
    | SUCCESS | REVERT_IN_PROGRESS | REVERTED | REVERT_FAILED

  predicate FinalState(s: State) {
    s in {SUCCESS, ACTIVATION_FAILED, REVERTED, REVERT_FAILED}
  }

  datatype Session = Session(
    state: State,
    children: seq<int>,
    fingerprint: string,
    errorMessage: string,
    crashingProcess: string)
  {
    /** ApexSession::IsFinalized. */
    predicate IsFinalized() {
      FinalState(state)
    }

    /** Sessions that RevertActiveSessions takes. */
    predicate IsRevertible() {
      !IsFinalized() && state != UNKNOWN
    }
  }

  type Sessions = map<int, Session>

  /** Persistent state: /data/apex/active, /data/apex/backup, /data/apex/decompressed, the hash trees in
      use and the freshly generated ones (by package id), and the committed session files (by session id). */
  datatype Disk = Disk(
    active: Option<Dir>,
    backup: Option<Dir>,
    decompressed: Dir,
    trees: map<string, string>,
    newTrees: map<string, string>,
    sessions: Sessions)

  datatype Write =
    | MakeActive
    | MakeBackup
    | PromoteTree(package: string)
    | LinkActive(name: string, inode: Inode)
    | UnlinkActive(name: string)
    | LinkBackup(name: string, inode: Inode)
    | UnlinkBackup(name: string)
    | UnlinkDecompressed(name: string)
    | RenameBackupToActive
    | Commit(id: int, session: Session)
    | DeleteSession(id: int)

  /** The files of a directory that may not exist. */
  function Files(d: Option<Dir>): Dir {
    if d.Some? then d.value else map[]
  }

  function Apply(d: Disk, w: Write): Disk {
    match w
    case MakeActive => d.(active := Some(Files(d.active)))
    case MakeBackup => d.(backup := Some(Files(d.backup)))
    case PromoteTree(id) =>
      if id in d.newTrees then d.(trees := d.trees[id := d.newTrees[id]], newTrees := d.newTrees - {id}) else d
    case LinkActive(n, f) => d.(active := Some(Files(d.active)[n := f]))
    case UnlinkActive(n) => if d.active.Some? then d.(active := Some(d.active.value - {n})) else d
    case LinkBackup(n, f) => d.(backup := Some(Files(d.backup)[n := f]))
    case UnlinkBackup(n) => if d.backup.Some? then d.(backup := Some(d.backup.value - {n})) else d
    case UnlinkDecompressed(n) => d.(decompressed := d.decompressed - {n})
    case RenameBackupToActive => if d.backup.Some? then d.(active := d.backup, backup := None) else d
    case Commit(id, s) => d.(sessions := d.sessions[id := s])
    case DeleteSession(id) => d.(sessions := d.sessions - {id})
  }

  // ---------- Staging ----------

  function Names(xs: seq<Apex>): set<string> {
    set x | x in xs :: x.name
  }

  function Ids(xs: seq<Apex>): set<string> {
    set x | x in xs :: x.Id()
  }

  function Dests(xs: seq<Apex>): set<string> {
    set x | x in xs :: FileName(x)
  }

  /** Every package linked under its own file name, a later one over an earlier one. */
  function Linked(dir: Dir, xs: seq<Apex>): Dir {
    if xs == [] then dir
    else
      var last := xs[|xs| - 1];
      Linked(dir, xs[..|xs| - 1])[FileName(last) := Package(last)]
  }

  /** The most writes that a staging of `xs` makes: the directory, three for each package, and at most one
      for each file that is then in the directory. */
  function StageCost(dir: Dir, xs: seq<Apex>): nat {
    1 + 3 * |xs| + |Linked(dir, xs)|
  }

  predicate IsApexFile(n: string) {
    EndsWith(n, APEX_SUFFIX)
  }

  /** File `n` is an APEX of one of the packages in `names` and is not to be kept. */
  predicate Obsolete(dir: Dir, n: string, names: set<string>, keep: set<string>) {
    n in dir && n !in keep && IsApexFile(n) && dir[n].Package? && dir[n].apex.name in names
  }

  function Prune(dir: Dir, names: set<string>, keep: set<string>): Dir {
    map n | n in dir && !Obsolete(dir, n, names, keep) :: dir[n]
  }

  /** Some of the obsolete files are gone and nothing else has changed. */
  ghost predicate PartlyPruned(dir: Dir, cut: Dir, names: set<string>, keep: set<string>) {
    && (forall n :: n in cut ==> n in dir && cut[n] == dir[n])
    && (forall n :: n in dir && n !in cut ==> Obsolete(dir, n, names, keep))
  }

  /** The active directory after staging `xs`: exactly the staged files for their packages, every
      other file as it was. */
  function StagedDir(dir: Dir, xs: seq<Apex>): Dir {
    Prune(Linked(dir, xs), Names(xs), Dests(xs))
  }

  function Promoted(d: Disk, ids: set<string>): Disk {
    d.(trees := map id | id in d.trees.Keys + (d.newTrees.Keys * ids) ::
                  if id in d.newTrees && id in ids then d.newTrees[id] else d.trees[id],
       newTrees := d.newTrees - ids)
  }

  function Staged(d: Disk, xs: seq<Apex>): Disk {
    Promoted(d, Ids(xs)).(active := Some(StagedDir(Files(d.active), xs)))
  }

  /** `cut` is an active directory in which a staging of packages `names` as files `dests` may have
      been interrupted: other files are as they were, except that obsolete ones may be gone. */
  ghost predicate DirCut(dir: Dir, cut: Dir, names: set<string>, dests: set<string>) {
    && (forall n :: n in cut && n !in dests ==> n in dir && cut[n] == dir[n])
    && (forall n :: n in dir && n !in cut && n !in dests ==> Obsolete(dir, n, names, dests))
  }

  /** Every file is an old one or one of `xs` under its own name. */
  ghost predicate FromStaging(dir: Dir, cut: Dir, xs: seq<Apex>) {
    forall n :: n in cut ==>
      || (n in dir && cut[n] == dir[n])
      || (cut[n].Package? && cut[n].apex in xs && FileName(cut[n].apex) == n)
  }

  /** The hash tree in use and the new one, for one package id. */
  function TreesAt(d: Disk, id: string): (Option<string>, Option<string>) {
    (Get(d.trees, id), Get(d.newTrees, id))
  }

  ghost predicate TreesCut(d: Disk, cut: Disk, ids: set<string>) {
    && (forall id :: TreesAt(cut, id) == TreesAt(d, id) ||
                     (id in ids && id in d.newTrees && TreesAt(cut, id) == (Some(d.newTrees[id]), None)))
  }

  /** `cut` is a disk that a power loss during a staging of `xs` on `d` may leave. */
  ghost predicate StageCut(d: Disk, cut: Disk, xs: seq<Apex>) {
    && cut.backup == d.backup && cut.decompressed == d.decompressed && cut.sessions == d.sessions
    && (cut.active.None? ==> d.active.None?)
    && DirCut(Files(d.active), Files(cut.active), Names(xs), Dests(xs))
    && FromStaging(Files(d.active), Files(cut.active), xs)
    && TreesCut(d, cut, Ids(xs))
  }

  lemma SameMap<K, V>(a: map<K, V>, b: map<K, V>)
    requires forall k :: Get(a, k) == Get(b, k)
    ensures a == b
  {
    forall k ensures (k in a <==> k in b) && (k in a ==> a[k] == b[k]) {
      assert Get(a, k) == Get(b, k);
    }
  }

  lemma {:induction false} LinkedAt(dir: Dir, xs: seq<Apex>)
    ensures Linked(dir, xs).Keys == dir.Keys + Dests(xs)
    ensures forall n :: n in dir && n !in Dests(xs) ==> Linked(dir, xs)[n] == dir[n]
  {
    hide FileName;
    if xs != [] {
      var init, last := xs[..|xs| - 1], xs[|xs| - 1];
      LinkedAt(dir, init);
      assert xs == init + [last];
      assert Dests(xs) == Dests(init) + {FileName(last)};
    }
  }

  lemma {:induction false} LinkedFew(dir: Dir, xs: seq<Apex>)
    ensures |Linked(dir, xs)| <= |dir| + |xs|
  {
    if xs != [] {
      var init, last := xs[..|xs| - 1], xs[|xs| - 1];
      LinkedFew(dir, init);
      var l, n := Linked(dir, init), FileName(last);
      hide FileName, Linked;
      assert l[n := Package(last)].Keys == l.Keys + {n};
      assert |l.Keys + {n}| <= |l.Keys| + 1 && |l| == |l.Keys|;
      assert |l[n := Package(last)]| == |l[n := Package(last)].Keys|;
    }
  }

  lemma ApexFilesAreFew(dir: Dir)
    ensures |set n | n in dir && IsApexFile(n)| <= |dir|
  {
    hide IsApexFile;
    var files := set n | n in dir && IsApexFile(n);
    assert dir.Keys == files + (dir.Keys - files);
    assert |dir| == |dir.Keys|;
  }

  /** What staging links under a destination does not depend on what was there. */
  lemma {:induction false} LinkedOverwrites(dir: Dir, dir': Dir, xs: seq<Apex>)
    ensures forall n :: n in Dests(xs) ==>
      n in Linked(dir, xs) && n in Linked(dir', xs) && Linked(dir, xs)[n] == Linked(dir', xs)[n]
  {
    hide FileName;
    if xs != [] {
      var init, last := xs[..|xs| - 1], xs[|xs| - 1];
      LinkedOverwrites(dir, dir', init);
      assert xs == init + [last];
      assert Dests(xs) == Dests(init) + {FileName(last)};
    }
  }

  lemma {:induction false} PrunedAfterCut(dir: Dir, cut: Dir, linked: Dir, linkedCut: Dir, names: set<string>,
                                          dests: set<string>)
    requires DirCut(dir, cut, names, dests)
    requires linked.Keys == dir.Keys + dests && linkedCut.Keys == cut.Keys + dests
    requires forall n :: n in dir && n !in dests ==> linked[n] == dir[n]
    requires forall n :: n in cut && n !in dests ==> linkedCut[n] == cut[n]
    requires forall n :: n in dests ==> linked[n] == linkedCut[n]
    ensures Prune(linkedCut, names, dests) == Prune(linked, names, dests)
  {
    hide IsApexFile;
    var a, b := Prune(linkedCut, names, dests), Prune(linked, names, dests);
    forall n ensures Get(a, n) == Get(b, n) {
      if n !in dests && n in dir && n in cut {
        assert cut[n] == dir[n];
      }
    }
    SameMap(a, b);
  }

  lemma {:induction false} StagedDirAfterCut(dir: Dir, cut: Dir, xs: seq<Apex>)
    requires DirCut(dir, cut, Names(xs), Dests(xs))
    ensures StagedDir(cut, xs) == StagedDir(dir, xs)
  {
    hide FileName;
    LinkedAt(dir, xs);
    LinkedAt(cut, xs);
    LinkedOverwrites(dir, cut, xs);
    PrunedAfterCut(dir, cut, Linked(dir, xs), Linked(cut, xs), Names(xs), Dests(xs));
  }

  lemma {:induction false} PromotedAfterCut(d: Disk, cut: Disk, ids: set<string>)
    requires TreesCut(d, cut, ids)
    ensures Promoted(cut, ids).trees == Promoted(d, ids).trees
    ensures Promoted(cut, ids).newTrees == Promoted(d, ids).newTrees
  {
    var a, b := Promoted(cut, ids), Promoted(d, ids);
    forall id ensures TreesAt(a, id) == TreesAt(b, id) {
      assert TreesAt(cut, id) == TreesAt(d, id) ||
             (id in ids && id in d.newTrees && TreesAt(cut, id) == (Some(d.newTrees[id]), None));
    }
    forall id ensures Get(a.trees, id) == Get(b.trees, id) && Get(a.newTrees, id) == Get(b.newTrees, id) {
      assert TreesAt(a, id) == TreesAt(b, id);
    }
    SameMap(a.trees, b.trees);
    SameMap(a.newTrees, b.newTrees);
  }

  /** Redo: staging again after a cut gives what one uncut staging gives. */
  lemma {:induction false} StageAfterCut(d: Disk, cut: Disk, xs: seq<Apex>)
    requires StageCut(d, cut, xs)
    ensures Staged(cut, xs) == Staged(d, xs)
  {
    StagedDirAfterCut(Files(d.active), Files(cut.active), xs);
    PromotedAfterCut(d, cut, Ids(xs));
  }

  /** A finished staging is one of the disks a cut may leave. */
  lemma {:induction false} StagedIsCut(d: Disk, xs: seq<Apex>)
    ensures StageCut(d, Staged(d, xs), xs)
  {
    hide FileName, IsApexFile, Names, Ids, Dests, FromStaging;
    LinkedAt(Files(d.active), xs);
    StagedFromStaging(Files(d.active), xs);
  }

  lemma {:induction false} StagedFromStaging(dir: Dir, xs: seq<Apex>)
    ensures FromStaging(dir, StagedDir(dir, xs), xs)
  {
    hide FileName, IsApexFile, Obsolete, Names, Dests;
    var l := Linked(dir, xs);
    LinkedAt(dir, xs);
    forall n | n in StagedDir(dir, xs)
      ensures (n in dir && l[n] == dir[n]) || (l[n].Package? && l[n].apex in xs && FileName(l[n].apex) == n)
    {
      if n in Dests(xs) {
        LinkedPackage(dir, xs, n);
      }
    }
  }

  /** Staging other packages `ys` does not mind that a staging of `xs` was cut before, whether or not they
      share a package name: the disk is again one that a cut of `xs` may leave. */
  lemma {:induction false} CutCommutes(d: Disk, cut: Disk, xs: seq<Apex>, ys: seq<Apex>)
    requires StageCut(d, cut, xs)
    ensures StageCut(Staged(d, ys), Staged(cut, ys), xs)
  {
    hide DirCut, FromStaging, Names, Dests, StagedDir, TreesCut, Ids;
    DirCutCommutes(Files(d.active), Files(cut.active), xs, ys);
    TreesCutCommutes(d, cut, Ids(xs), Ids(ys));
    TreesIgnoreActive(Promoted(d, Ids(ys)), Promoted(cut, Ids(ys)), Staged(d, ys), Staged(cut, ys), Ids(xs));
  }

  lemma TreesIgnoreActive(d: Disk, cut: Disk, e: Disk, cute: Disk, ids: set<string>)
    requires TreesCut(d, cut, ids) && e == d.(active := e.active) && cute == cut.(active := cute.active)
    ensures TreesCut(e, cute, ids)
  {
    assert forall id :: TreesAt(e, id) == TreesAt(d, id) && TreesAt(cute, id) == TreesAt(cut, id);
  }

  lemma {:induction false} TreesCutCommutes(d: Disk, cut: Disk, ids: set<string>, others: set<string>)
    requires TreesCut(d, cut, ids)
    ensures TreesCut(Promoted(d, others), Promoted(cut, others), ids)
  {
    var e, f := Promoted(d, others), Promoted(cut, others);
    forall id ensures TreesAt(f, id) == TreesAt(e, id) ||
        (id in ids && id in e.newTrees && TreesAt(f, id) == (Some(e.newTrees[id]), None)) {
      assert TreesAt(cut, id) == TreesAt(d, id) ||
             (id in ids && id in d.newTrees && TreesAt(cut, id) == (Some(d.newTrees[id]), None));
    }
  }

  /** A file that a staging of `xs` does not remove. */
  function Spared(dir: Dir, xs: seq<Apex>, n: string): Option<Inode> {
    if n in dir && !Obsolete(dir, n, Names(xs), Dests(xs)) then Some(dir[n]) else None
  }

  /** One file of a staged directory: linked, or as it was unless it is obsolete. */
  lemma {:induction false} StagedAt(dir: Dir, xs: seq<Apex>, n: string)
    ensures n in Dests(xs) ==> n in Linked(dir, xs) && Get(StagedDir(dir, xs), n) == Some(Linked(dir, xs)[n])
    ensures n !in Dests(xs) ==> Get(StagedDir(dir, xs), n) == Spared(dir, xs, n)
  {
    hide FileName, IsApexFile, Names, Dests;
    LinkedAt(dir, xs);
  }

  lemma {:induction false} DirCutCommutes(dir: Dir, cut: Dir, xs: seq<Apex>, ys: seq<Apex>)
    requires DirCut(dir, cut, Names(xs), Dests(xs)) && FromStaging(dir, cut, xs)
    ensures DirCut(StagedDir(dir, ys), StagedDir(cut, ys), Names(xs), Dests(xs))
    ensures FromStaging(StagedDir(dir, ys), StagedDir(cut, ys), xs)
  {
    hide FileName, IsApexFile, Names, Dests, StagedDir, Linked;
    var e, f := StagedDir(dir, ys), StagedDir(cut, ys);
    LinkedOverwrites(dir, cut, ys);
    forall n ensures n in Dests(ys) ==> Get(e, n) == Get(f, n)
      ensures n !in Dests(ys) ==> Get(e, n) == Spared(dir, ys, n) && Get(f, n) == Spared(cut, ys, n)
    {
      StagedAt(dir, ys, n);
      StagedAt(cut, ys, n);
    }
    forall n | n in f && n !in Dests(xs) ensures n in e && f[n] == e[n] {
      assert Get(f, n) == Some(f[n]);
    }
    forall n | n in e && n !in f && n !in Dests(xs) ensures Obsolete(e, n, Names(xs), Dests(xs)) {
      assert Get(e, n) == Some(e[n]) && Get(f, n) == None;
    }
    forall n | n in f
      ensures (n in e && f[n] == e[n]) || (f[n].Package? && f[n].apex in xs && FileName(f[n].apex) == n)
    {
      assert Get(f, n) == Some(f[n]);
    }
  }

  /** Staging twice is staging once. */
  lemma {:induction false} StageIdempotent(d: Disk, xs: seq<Apex>)
    ensures Staged(Staged(d, xs), xs) == Staged(d, xs)
  {
    StagedIsCut(d, xs);
    StageAfterCut(d, Staged(d, xs), xs);
  }

  /** The writes a staging of `xs` makes. */
  predicate StagingWrite(d: Disk, w: Write, xs: seq<Apex>) {
    match w
    case MakeActive => true
    case PromoteTree(id) => id in Ids(xs)
    case LinkActive(n, f) => n in Dests(xs) && f.Package? && f.apex in xs && FileName(f.apex) == n
    case UnlinkActive(n) => n in Dests(xs) || Obsolete(Files(d.active), n, Names(xs), Dests(xs))
    case _ => false
  }

  lemma {:induction false} CutThenWrite(d: Disk, e: Disk, w: Write, xs: seq<Apex>)
    requires StageCut(d, e, xs) && StagingWrite(e, w, xs)
    ensures StageCut(d, Apply(e, w), xs)
  {
    hide FileName, IsApexFile, Names, Ids, Dests, DirCut, FromStaging;
    var f := Apply(e, w);
    if w.PromoteTree? {
      forall id ensures TreesAt(f, id) == TreesAt(d, id) ||
          (id in Ids(xs) && id in d.newTrees && TreesAt(f, id) == (Some(d.newTrees[id]), None)) {
        assert TreesAt(e, id) == TreesAt(d, id) ||
          (id in Ids(xs) && id in d.newTrees && TreesAt(e, id) == (Some(d.newTrees[id]), None));
      }
    } else {
      assert forall id :: TreesAt(f, id) == TreesAt(e, id);
      DirCutThenWrite(Files(d.active), e, w, xs);
    }
  }

  /** A write of a staging keeps the active directory one that a cut may leave. */
  lemma {:induction false} DirCutThenWrite(dir: Dir, e: Disk, w: Write, xs: seq<Apex>)
    requires DirCut(dir, Files(e.active), Names(xs), Dests(xs)) && FromStaging(dir, Files(e.active), xs)
    requires StagingWrite(e, w, xs)
    ensures var f := Apply(e, w);
      DirCut(dir, Files(f.active), Names(xs), Dests(xs)) && FromStaging(dir, Files(f.active), xs)
  {
    hide FileName, IsApexFile, Names, Ids, Dests;
  }

  lemma {:induction false} CutThenPrune(d: Disk, e: Disk, cut: Dir, xs: seq<Apex>)
    requires StageCut(d, e, xs) && e.active.Some?
    requires PartlyPruned(e.active.value, cut, Names(xs), Dests(xs))
    ensures StageCut(d, e.(active := Some(cut)), xs)
  {
    hide FileName, IsApexFile, Names, Ids, Dests;
    var f := e.(active := Some(cut));
    assert forall id :: TreesAt(f, id) == TreesAt(e, id);
  }

  predicate AllReadable(dir: Dir) {
    forall n :: n in dir && IsApexFile(n) ==> dir[n].Package?
  }

  lemma {:induction false} CutReadable(d: Disk, cut: Disk, xs: seq<Apex>)
    requires StageCut(d, cut, xs) && AllReadable(Files(d.active))
    ensures AllReadable(Files(cut.active))
  {
    hide FileName, IsApexFile, Names, Ids, Dests;
  }

  /** Every APEX file that a staging of `xs` does not overwrite can be opened. */
  predicate OthersReadable(dir: Dir, xs: seq<Apex>) {
    forall n :: n in dir && n !in Dests(xs) && IsApexFile(n) ==> dir[n].Package?
  }

  lemma {:induction false} LinkedReadable(dir: Dir, xs: seq<Apex>)
    ensures AllReadable(Linked(dir, xs)) <==> OthersReadable(dir, xs)
  {
    hide FileName, IsApexFile;
    LinkedAt(dir, xs);
    forall n | n in Dests(xs) ensures Linked(dir, xs)[n].Package? {
      LinkedPackage(dir, xs, n);
    }
    if AllReadable(Linked(dir, xs)) {
      forall n | n in dir && n !in Dests(xs) && IsApexFile(n) ensures dir[n].Package? {
        assert n in Linked(dir, xs) && Linked(dir, xs)[n] == dir[n];
      }
    }
  }

  lemma {:induction false} LinkedPackage(dir: Dir, xs: seq<Apex>, n: string)
    requires n in Dests(xs)
    ensures n in Linked(dir, xs) && Linked(dir, xs)[n].Package?
    ensures Linked(dir, xs)[n].apex in xs && FileName(Linked(dir, xs)[n].apex) == n
  {
    hide FileName;
    var init, last := xs[..|xs| - 1], xs[|xs| - 1];
    assert xs == init + [last];
    if n != FileName(last) {
      LinkedPackage(dir, init, n);
    }
  }

  /** The disk after `i` turns of the staging loop. */
  function StagedSoFar(d: Disk, xs: seq<Apex>, i: nat): Disk
    requires i <= |xs|
  {
    Promoted(d, Ids(xs[..i])).(active := Some(Linked(Files(d.active), xs[..i])))
  }

  lemma {:induction false} StagePrefixStep(d: Disk, xs: seq<Apex>, i: nat)
    requires i < |xs|
    ensures Names(xs[..i + 1]) == Names(xs[..i]) + {xs[i].name}
    ensures Dests(xs[..i + 1]) == Dests(xs[..i]) + {FileName(xs[i])}
    ensures Ids(xs[..i + 1]) == Ids(xs[..i]) + {xs[i].Id()}
    ensures Linked(Files(d.active), xs[..i + 1]) ==
            Linked(Files(d.active), xs[..i])[FileName(xs[i]) := Package(xs[i])]
  {
    hide FileName;
    assert xs[..i + 1] == xs[..i] + [xs[i]];
    assert xs[..i + 1][..i] == xs[..i];
  }

  lemma {:induction false} PromoteStep(d: Disk, ids: set<string>, id: string)
    ensures Apply(Promoted(d, ids), PromoteTree(id)).trees == Promoted(d, ids + {id}).trees
    ensures Apply(Promoted(d, ids), PromoteTree(id)).newTrees == Promoted(d, ids + {id}).newTrees
  {
    var a, b := Apply(Promoted(d, ids), PromoteTree(id)), Promoted(d, ids + {id});
    forall k ensures Get(a.trees, k) == Get(b.trees, k) && Get(a.newTrees, k) == Get(b.newTrees, k) { }
    SameMap(a.trees, b.trees);
    SameMap(a.newTrees, b.newTrees);
  }

  lemma {:induction false} StageStarts(d: Disk, xs: seq<Apex>)
    ensures StageCut(d, d, xs)
    ensures Apply(d, MakeActive) == StagedSoFar(d, xs, 0)
  {
    hide FileName, IsApexFile;
    assert Ids(xs[..0]) == {};
    SameMap(Promoted(d, {}).trees, d.trees);
  }

  lemma {:induction false} StagedSoFarIsLinked(d: Disk, xs: seq<Apex>)
    ensures StagedSoFar(d, xs, |xs|) == Promoted(d, Ids(xs)).(active := Some(Linked(Files(d.active), xs)))
    ensures Staged(d, xs) ==
      Promoted(d, Ids(xs)).(active := Some(Prune(Linked(Files(d.active), xs), Names(xs), Dests(xs))))
  {
    assert xs[..|xs|] == xs;
  }

  lemma UnpromotedTree(d: Disk, id: string)
    ensures id !in d.newTrees ==> Apply(d, PromoteTree(id)) == d
  { }

  lemma UnlinkThenLink(d: Disk, n: string, f: Inode)
    ensures Apply(Apply(d, UnlinkActive(n)), LinkActive(n, f)) == Apply(d, LinkActive(n, f))
  {
    assert (Files(d.active) - {n})[n := f] == Files(d.active)[n := f];
  }

  /** One turn of the staging loop, as the writes it makes. */
  lemma {:induction false} StageTurn(d: Disk, xs: seq<Apex>, i: nat)
    requires i < |xs|
    ensures var e := StagedSoFar(d, xs, i);
      Apply(Apply(e, PromoteTree(xs[i].Id())), LinkActive(FileName(xs[i]), Package(xs[i]))) == StagedSoFar(d, xs, i + 1)
  {
    hide FileName;
    StagePrefixStep(d, xs, i);
    hide Linked, Ids, Names, Dests;
    PromoteStep(d, Ids(xs[..i]), xs[i].Id());
  }

  lemma {:induction false} StagedReadable(d: Disk, xs: seq<Apex>)
    requires AllReadable(Files(d.active))
    ensures AllReadable(Files(Staged(d, xs).active))
  {
    hide FileName, IsApexFile, Names, Ids;
    LinkedReadable(Files(d.active), xs);
  }

  lemma {:induction false} StagedIgnoresSessions(d: Disk, ss: Sessions, xs: seq<Apex>)
    ensures Staged(d.(sessions := ss), xs) == Staged(d, xs).(sessions := ss)
  {
    hide StagedDir, Ids;
  }

  /** Redo after any number of cuts: whatever disks the interrupted attempts leave one after the
      other, a final uncut attempt ends where one uncut staging of the first disk would have. */
  lemma {:induction false} StageAfterCuts(disks: seq<Disk>, xs: seq<Apex>)
    requires |disks| > 0
    requires forall i :: 0 < i < |disks| ==> StageCut(disks[i - 1], disks[i], xs)
    ensures Staged(disks[|disks| - 1], xs) == Staged(disks[0], xs)
  {
    if |disks| > 1 {
      var init := disks[..|disks| - 1];
      StageAfterCuts(init, xs);
      StageAfterCut(init[|init| - 1], disks[|disks| - 1], xs);
    }
  }
}
