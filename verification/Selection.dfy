/** Choosing which APEX of each package to activate, and predicting what an OTA will have to decompress
    (apexd/apexd.cpp:2620-2709, 3314-3371). */
module Selection {
  import opened Basics
  import opened Naming
  import opened Packages
  import opened Repository

  /** The decision on an APEX, given the version of the other APEX of its package. The caller passes
      that version as an `int`, so `otherVersion` is already narrowed. */
  predicate Activates(a: Apex, preInstalled: bool, otherVersion: int) {
    if a.providesSharedLibs then
      || (preInstalled && a.version != otherVersion)
      || (!preInstalled && a.version >= otherVersion)
    else
      || a.version > otherVersion
      || (a.version == otherVersion && !preInstalled)
  }

  predicate PreChosen(pre: Apex, data: Option<Apex>) {
    data.None? || Activates(pre, true, Int32(data.value.version))
  }

  predicate DataChosen(pre: Apex, data: Option<Apex>) {
    data.Some? && Activates(data.value, false, Int32(pre.version))
  }

  /** What is put on the activation list for a pre-installed package. */
  function ChosenOf(pre: ApexFile, data: Option<ApexFile>): seq<ApexFile> {
    var updated := if data.Some? then Some(data.value.apex) else None;
    (if PreChosen(pre.apex, updated) then [pre] else []) + (if DataChosen(pre.apex, updated) then [data.value] else [])
  }

  function Chosen(repo: ApexFileRepository, name: string): seq<ApexFile>
    reads repo`preInstalled, repo`data
  {
    if name in repo.preInstalled then ChosenOf(repo.preInstalled[name], Get(repo.data, name)) else []
  }

  function DataOf(repo: ApexFileRepository, name: string): (data: Option<Apex>)
    reads repo`data
    ensures data.Some? <==> name in repo.data
  {
    if name in repo.data then Some(repo.data[name].apex) else None
  }

  /** The directory of downloaded APEXes holds neither built-in nor decompressed files. */
  ghost predicate ApartOnDisk(repo: ApexFileRepository)
    reads repo`preInstalled, repo`data
  {
    forall n :: n in repo.data ==>
      && !repo.IsDecompressedApex(repo.data[n])
      && (n in repo.preInstalled ==> repo.preInstalled[n].path != repo.data[n].path)
  }

  ghost function Flat(names: seq<string>, repo: ApexFileRepository): seq<ApexFile>
    reads repo`preInstalled, repo`data
  {
    if names == [] then [] else Flat(names[..|names| - 1], repo) + Chosen(repo, names[|names| - 1])
  }

  method SelectApex(list: seq<ApexFile>, a: ApexFile, otherVersion: int, repo: ApexFileRepository)
    returns (activationList: seq<ApexFile>)
    ensures activationList == list + if Activates(a.apex, repo.IsPreInstalledApex(a), otherVersion) then [a] else []
  {
    var higherVersion := a.apex.version > otherVersion;
    var sameVersionPriorityToData := a.apex.version == otherVersion && !repo.IsPreInstalledApex(a);
    var activate := false;
    if a.apex.providesSharedLibs {
      if repo.IsPreInstalledApex(a) && a.apex.version != otherVersion {
        activate := true;
      }
      if !repo.IsPreInstalledApex(a) && a.apex.version >= otherVersion {
        activate := true;
      }
    } else if higherVersion || sameVersionPriorityToData {
      activate := true;
    }
    activationList := if activate then list + [a] else list;
  }

  /** One turn of the loop of SelectApexForActivation. */
  method SelectOf(list: seq<ApexFile>, name: string, files: seq<ApexFile>, repo: ApexFileRepository)
    returns (activationList: seq<ApexFile>)
    requires repo.Valid() && ApartOnDisk(repo)
    requires files == repo.FilesOf(name) && files != []
    ensures activationList == list + Chosen(repo, name)
  {
    hide Activates, StartsWith, Int32;
    if name !in repo.preInstalled {
      return list;
    }
    if |files| == 1 {
      return list + [files[0]];
    }
    assert files == [repo.preInstalled[name], repo.data[name]];
    var version0, version1 := Int32(files[0].apex.version), Int32(files[1].apex.version);
    activationList := SelectApex(list, files[0], version1, repo);
    activationList := SelectApex(activationList, files[1], version0, repo);
  }

  /** SelectApexForActivation on what AllApexFilesByName collected, in the order of the walk over the packages. */
  method SelectApexForActivation(allApex: map<string, seq<ApexFile>>, repo: ApexFileRepository)
    returns (activationList: seq<ApexFile>)
    requires repo.Valid() && ApartOnDisk(repo)
    requires forall n :: Get(allApex, n) == if repo.FilesOf(n) == [] then None else Some(repo.FilesOf(n))
    ensures exists names :: IsListing(names, allApex.Keys) && activationList == Flat(names, repo)
    ensures forall f :: f in activationList <==> exists n :: n in allApex && f in Chosen(repo, n)
  {
    hide Chosen;
    activationList := [];
    var walk := List(allApex.Keys);
    for i := 0 to |walk|
      invariant activationList == Flat(walk[..i], repo)
    {
      assert walk[..i + 1][..i] == walk[..i];
      assert Get(allApex, walk[i]).Some?;
      activationList := SelectOf(activationList, walk[i], allApex[walk[i]], repo);
    }
    assert walk[..|walk|] == walk;
    forall f ensures f in activationList <==> exists n :: n in allApex && f in Chosen(repo, n) {
      FlatHas(walk, repo, f);
      assert forall n :: n in walk <==> n in allApex;
    }
  }

  lemma {:induction false} FlatHas(names: seq<string>, repo: ApexFileRepository, file: ApexFile)
    ensures file in Flat(names, repo) <==> exists n :: n in names && file in Chosen(repo, n)
  {
    hide Chosen;
    if names != [] {
      FlatHas(names[..|names| - 1], repo, file);
      assert names == names[..|names| - 1] + [names[|names| - 1]];
    }
  }

  // What the selection means

  /** With 32-bit versions the data file is taken when it is at least as high, the pre-installed one when
      it is higher, or when it provides shared libraries and is strictly lower: never none, and never two
      for other packages. */
  lemma {:induction false} HighestIsChosen(pre: ApexFile, data: ApexFile)
    requires FitsInt32(pre.apex.version) && FitsInt32(data.apex.version)
    ensures ChosenOf(pre, Some(data)) ==
      if pre.apex.version > data.apex.version then [pre]
      else if pre.apex.version < data.apex.version && pre.apex.providesSharedLibs then [pre, data]
      else [data]
  {
    assert [pre] + [] == [pre] && [] + [data] == [data];
  }

  /** `w` and its narrowing lie on different sides of `v`, so that comparing with the narrowing goes wrong. */
  predicate NarrowedAcross(v: int, w: int) {
    Int32(w) <= v < w || w <= v < Int32(w)
  }

  /** For a package without shared libraries the selection is the intended one, the highest version and
      the data file on a tie, exactly when neither version is narrowed across the other. */
  lemma {:induction false} IntendedUnlessNarrowedAcross(pre: ApexFile, data: ApexFile)
    requires NoSharedLibs(pre, data)
    ensures ChosenOf(pre, Some(data)) == (if pre.apex.version > data.apex.version then [pre] else [data])
      <==> !NarrowedAcross(data.apex.version, pre.apex.version) &&
             !NarrowedAcross(pre.apex.version - 1, data.apex.version)
  {
    var v, w := pre.apex.version, data.apex.version;
    assert [pre] + [] == [pre] && [] + [data] == [data];
    assert DataChosen(pre.apex, Some(data.apex)) <==> w >= Int32(v);
    assert PreChosen(pre.apex, Some(data.apex)) <==> v > Int32(w);
    if v > Int32(w) && w >= Int32(v) {
      assert |ChosenOf(pre, Some(data))| == 2;
    }
    if pre == data {
      assert v == w;
    }
  }

  /** `w` is narrowed onto `v`, or away from it, so that an equality with the narrowing goes wrong. */
  predicate NarrowedOntoOrAway(v: int, w: int) {
    (v == Int32(w)) != (v == w)
  }

  /** The decisions that are meant: the pre-installed file if it is higher or a provider of shared libraries
      that is lower; the data file if it is not lower. */
  predicate IntendedDecisions(pre: Apex, data: Apex, preChosen: bool, dataChosen: bool) {
    && (preChosen <==> pre.version > data.version || (pre.providesSharedLibs && pre.version < data.version))
    && (dataChosen <==> data.version >= pre.version)
  }

  /** For all 64-bit versions and both kinds of packages: the decisions are the intended ones exactly if the
      pre-installed version is not narrowed across the other and the data version is not narrowed across the
      other or, for a provider, onto it or away from it. */
  lemma {:induction false} IntendedDecisionsIff(pre: Apex, data: Apex)
    ensures IntendedDecisions(pre, data, PreChosen(pre, Some(data)), DataChosen(pre, Some(data))) <==>
      && !NarrowedAcross(data.version, pre.version)
      && if pre.providesSharedLibs then !NarrowedOntoOrAway(pre.version, data.version)
         else !NarrowedAcross(pre.version - 1, data.version)
  {
    var v, w := pre.version, data.version;
    assert DataChosen(pre, Some(data)) <==> w >= Int32(v);
    assert PreChosen(pre, Some(data)) <==> if pre.providesSharedLibs then v != Int32(w) else v > Int32(w);
  }

  /** Two providers for which the pre-installed copy, strictly lower, is not chosen. */
  lemma {:induction false} ProviderCounterexample()
    ensures exists pre: Apex, data: Apex ::
      && pre.providesSharedLibs && data.providesSharedLibs && 0 <= pre.version < data.version
      && !PreChosen(pre, Some(data)) && DataChosen(pre, Some(data))
  {
    var pre, data := Apex("libs", 1, "k", "1", true, false), Apex("libs", 0x1_0000_0001, "k", "2", true, false);
    assert !PreChosen(pre, Some(data)) && DataChosen(pre, Some(data));
  }

  /** Some file is chosen for every package, unless a version lies below the 32-bit range. */
  lemma {:induction false} SomethingIsChosen(pre: ApexFile, data: Option<ApexFile>)
    requires pre.apex.version >= INT32_MIN && (data.Some? ==> data.value.apex.version >= INT32_MIN)
    ensures ChosenOf(pre, data) != []
  {
    NarrowingOnlyLowers(pre.apex.version);
    if data.Some? {
      NarrowingOnlyLowers(data.value.apex.version);
    }
  }

  lemma NarrowingOnlyLowers(v: int)
    requires v >= INT32_MIN
    ensures Int32(v) <= v
  { }

  predicate NoSharedLibs(pre: ApexFile, data: ApexFile) {
    !pre.apex.providesSharedLibs && !data.apex.providesSharedLibs
  }

  /** Versions outside the 32-bit range for which both files, or neither, are chosen. */
  lemma {:induction false} NarrowingCounterexamples()
    ensures exists pre: ApexFile, data: ApexFile ::
      NoSharedLibs(pre, data) && pre.apex.version >= 0 && ChosenOf(pre, Some(data)) == [pre, data]
    ensures exists pre: ApexFile, data: ApexFile :: NoSharedLibs(pre, data) && ChosenOf(pre, Some(data)) == []
  {
    var pre := ApexFile("/system/apex/a.apex", Apex("a", 1, "k", "d", false, false));
    var data := ApexFile("/data/apex/active/a.apex", Apex("a", 0x1_0000_0000, "k", "d", false, false));
    assert NoSharedLibs(pre, data) && ChosenOf(pre, Some(data)) == [pre, data];
    var pre' := pre.(apex := pre.apex.(version := -0xffff_fffb));
    var data' := data.(apex := data.apex.(version := -0xffff_fff9));
    assert NoSharedLibs(pre', data') && ChosenOf(pre', Some(data')) == [];
  }

  /** Scan, then select. Of the pre-installed file and the trusted files of the listing, a file of the
      highest version is chosen, and one of the listing when any of them has it; the choice has one file,
      or two when a pre-installed provider of shared libraries is strictly lower. */
  lemma {:induction false} ScanThenSelect(repo: ApexFileRepository, files: seq<Listed>, name: string)
    requires name in repo.preInstalled && FitsInt32(repo.preInstalled[name].apex.version)
    requires forall f :: f in files && repo.Trusted(f, name) ==> FitsInt32(f.content.value.version)
    requires repo.IsBest(Get(repo.data, name), None, files, name)
    ensures Chosen(repo, name) != []
    ensures var top := Chosen(repo, name)[|Chosen(repo, name)| - 1]; var pre := repo.preInstalled[name];
      && pre.apex.version <= top.apex.version
      && (forall f :: f in files && repo.Trusted(f, name) ==> f.content.value.version <= top.apex.version)
      && (forall f :: f in files && repo.Trusted(f, name) && f.content.value.version == top.apex.version ==>
            exists g :: g in files && repo.Trusted(g, name) && top == AsFile(g))
      && Chosen(repo, name) ==
           if pre.apex.providesSharedLibs && pre.apex.version < top.apex.version then [pre, top] else [top]
  {
    hide StartsWith, EndsWith, Int32;
    var pre, data := repo.preInstalled[name], Get(repo.data, name);
    if data.Some? {
      var i: nat :| repo.IsFirstBest(data.value, None, files, i, name);
      HighestIsChosen(pre, data.value);
    } else {
      assert [pre] + [] == [pre];
    }
  }

  /** The versions chosen do not depend on the order in which the directory is listed. */
  lemma {:induction false} SelectionIgnoresOrder(repo: ApexFileRepository, best: Option<ApexFile>,
                                                 best': Option<ApexFile>,
                                                 files: seq<Listed>, files': seq<Listed>, name: string, pre: ApexFile)
    requires repo.IsBest(best, None, files, name) && repo.IsBest(best', None, files', name)
    requires forall f :: f in files <==> f in files'
    ensures var c, c' := ChosenOf(pre, best), ChosenOf(pre, best');
      |c| == |c'| && forall i :: 0 <= i < |c| ==> c[i].apex.version == c'[i].apex.version
  {
    hide Int32;
    repo.BestVersionIgnoresOrder(best, best', None, files, files', name);
  }

  // Space for an OTA

  /** Whether space is set aside for a compressed APEX that an OTA brings. */
  predicate ShouldAllocateSpaceForDecompression(newName: string, newVersion: int64, repo: ApexFileRepository)
    reads repo`preInstalled, repo`data
  {
    if newName !in repo.preInstalled then true
    else if newName !in repo.data then
      !repo.preInstalled[newName].apex.compressed || newVersion != repo.preInstalled[newName].apex.version
    else newVersion > repo.data[newName].apex.version
  }

  /** A file that the boot before the OTA left: the decompressed form of a compressed pre-installed APEX
      that was chosen. It serves `c` if it has the name expected for `c` and passes validation. */
  ghost predicate Serves(repo: ApexFileRepository, n: string, c: Apex)
    reads repo`preInstalled, repo`data
  {
    && n in repo.preInstalled
    && var pre := repo.preInstalled[n].apex;
       && pre.compressed && PreChosen(pre, DataOf(repo, n))
       && pre.Id() + DECOMPRESSED_SUFFIX == c.Id() + DECOMPRESSED_SUFFIX
       && SameContent(pre, c)
  }

  /** What validation of a decompressed file compares (ValidateDecompressedApex). */
  predicate SameContent(a: Apex, b: Apex) {
    a.key == b.key && a.version == b.version && a.digest == b.digest
  }

  /** The data file that the repository will still trust once `c` is pre-installed. */
  function DataAfter(repo: ApexFileRepository, c: Apex): Option<Apex>
    reads repo`data
  {
    if DataOf(repo, c.name).Some? && repo.data[c.name].apex.key == c.key then DataOf(repo, c.name) else None
  }

  /** The boot after the OTA chooses `c` and finds no file that makes decompression unnecessary. */
  ghost predicate MustDecompress(repo: ApexFileRepository, c: Apex)
    reads repo`preInstalled, repo`data
  {
    PreChosen(c, DataAfter(repo, c)) && forall n :: !Serves(repo, n, c)
  }

  predicate SameFile(repo: ApexFileRepository, c: Apex)
    reads repo`preInstalled
  {
    && c.name in repo.preInstalled && repo.preInstalled[c.name].apex.compressed
    && SameContent(repo.preInstalled[c.name].apex, c)
  }

  /** Space is needed and not set aside: the version is the one already decompressed but the content is
      not; or the data file is not lower, and either it loses trust because the key changes, or `c`
      provides shared libraries, is strictly lower, and has not been decompressed before. */
  predicate Overlooked(repo: ApexFileRepository, c: Apex)
    reads repo`preInstalled, repo`data
  {
    && c.name in repo.preInstalled
    && var pre := repo.preInstalled[c.name].apex;
       if c.name !in repo.data then pre.compressed && c.version == pre.version && !SameContent(pre, c)
       else
         var data := repo.data[c.name].apex;
         && c.version <= data.version
         && (data.key != c.key || (c.providesSharedLibs && c.version < data.version))
         && !(SameFile(repo, c) && PreChosen(pre, Some(data)))
  }

  /** Space is set aside and not needed: the data file is lower than the pre-installed one, whose
      decompressed form the OTA does not change. */
  predicate Excess(repo: ApexFileRepository, c: Apex)
    reads repo`preInstalled, repo`data
  {
    && c.name in repo.preInstalled && c.name in repo.data
    && c.version > repo.data[c.name].apex.version && SameFile(repo, c)
  }

  ghost predicate Versions32(repo: ApexFileRepository, c: Apex)
    reads repo`preInstalled, repo`data
  {
    && FitsInt32(c.version)
    && (c.name in repo.preInstalled ==> FitsInt32(repo.preInstalled[c.name].apex.version))
    && (c.name in repo.data ==> FitsInt32(repo.data[c.name].apex.version))
  }

  lemma {:induction false} ServedByItself(repo: ApexFileRepository, c: Apex)
    requires repo.Valid()
    ensures (exists n :: Serves(repo, n, c)) <==>
      SameFile(repo, c) && PreChosen(repo.preInstalled[c.name].apex, DataOf(repo, c.name))
  {
    hide PreChosen, PackageId;
    if n :| Serves(repo, n, c) {
      var pre := repo.preInstalled[n].apex;
      AppendInjective(pre.Id(), c.Id(), DECOMPRESSED_SUFFIX);
      PackageIdInjective(pre.name, pre.version, c.name, c.version);
    }
    if SameFile(repo, c) && PreChosen(repo.preInstalled[c.name].apex, DataOf(repo, c.name)) {
      assert Serves(repo, c.name, c);
    }
  }

  /** The reservation and the boot agree on `c`, except in exactly the two ways above. */
  lemma {:induction false} ReservationAgrees(repo: ApexFileRepository, c: Apex)
    requires repo.Valid() && repo.data.Keys <= repo.preInstalled.Keys
    requires Versions32(repo, c)
    ensures Overlooked(repo, c) <==>
      MustDecompress(repo, c) && !ShouldAllocateSpaceForDecompression(c.name, c.version, repo)
    ensures Excess(repo, c) <==>
      !MustDecompress(repo, c) && ShouldAllocateSpaceForDecompression(c.name, c.version, repo)
  {
    hide Serves, Int32;
    ServedByItself(repo, c);
  }

  /** The assumptions under which the two procedures were meant to agree: no data file below the
      pre-installed one, no change of key, and equal package ids only for equal content. */
  ghost predicate Settled(repo: ApexFileRepository, c: Apex)
    reads repo`preInstalled, repo`data
  {
    && (c.name in repo.preInstalled ==>
         var pre := repo.preInstalled[c.name].apex;
         && pre.key == c.key
         && (pre.Id() == c.Id() ==> SameContent(pre, c))
         && (c.name in repo.data ==>
               repo.data[c.name].apex.key == c.key && pre.version <= repo.data[c.name].apex.version))
  }

  /** A provider of shared libraries below the data file, which the boot activates next to it. */
  predicate LowerSharedLibs(repo: ApexFileRepository, c: Apex)
    reads repo`preInstalled, repo`data
  {
    && c.name in repo.preInstalled && c.name in repo.data
    && c.providesSharedLibs && c.version < repo.data[c.name].apex.version
    && !(repo.preInstalled[c.name].apex.compressed && repo.preInstalled[c.name].apex.providesSharedLibs
         && repo.preInstalled[c.name].apex.version == c.version)
  }

  /** Under those assumptions they agree unless `c` is such a provider. */
  lemma {:induction false} ReservationAgreesWhenSettled(repo: ApexFileRepository, c: Apex)
    requires repo.Valid() && repo.data.Keys <= repo.preInstalled.Keys
    requires Versions32(repo, c) && Settled(repo, c)
    ensures (ShouldAllocateSpaceForDecompression(c.name, c.version, repo) <==> MustDecompress(repo, c)) <==>
      !LowerSharedLibs(repo, c)
  {
    hide Int32, MustDecompress;
    ReservationAgrees(repo, c);
    if c.name in repo.preInstalled && repo.preInstalled[c.name].apex.version == c.version {
      assert repo.preInstalled[c.name].apex.Id() == c.Id();
    }
  }

  /** A provider of shared libraries at versions 1 (pre-installed) and 3 (on data): the boot after an OTA
      decompresses version 2, for which nothing was set aside. */
  lemma {:induction false} OverlookedExample(repo: ApexFileRepository)
    requires repo.preInstalled == map["libs" :=
      ApexFile("/system/apex/libs.capex", Apex("libs", 1, "k", "1", true, true))]
    requires repo.data == map["libs" :=
      ApexFile("/data/apex/active/libs@3.apex", Apex("libs", 3, "k", "3", true, false))]
    ensures var c := Apex("libs", 2, "k", "2", true, true);
      Versions32(repo, c) && Settled(repo, c) &&
      MustDecompress(repo, c) && !ShouldAllocateSpaceForDecompression("libs", 2, repo)
  {
    var c := Apex("libs", 2, "k", "2", true, true);
    ReservationAgrees(repo, c);
    if repo.preInstalled["libs"].apex.Id() == c.Id() {
      PackageIdInjective("libs", 1, "libs", 2);
    }
  }

  /** A compressed APEX that an OTA brings, with its size once decompressed. */
  datatype Incoming = Incoming(apex: Apex, size: nat)

  function Reserved(xs: seq<Incoming>, repo: ApexFileRepository): nat
    reads repo`preInstalled, repo`data
  {
    if xs == [] then 0
    else
      var x := xs[|xs| - 1];
      Reserved(xs[..|xs| - 1], repo) +
        if ShouldAllocateSpaceForDecompression(x.apex.name, x.apex.version, repo) then x.size else 0
  }

  /** The space that the boot after the OTA will fill. */
  ghost function Required(xs: seq<Incoming>, repo: ApexFileRepository): nat
    reads repo`preInstalled, repo`data
  {
    if xs == [] then 0
    else Required(xs[..|xs| - 1], repo) + if MustDecompress(repo, xs[|xs| - 1].apex) then xs[|xs| - 1].size else 0
  }

  method CalculateSizeForCompressedApex(compressed: seq<Incoming>, repo: ApexFileRepository) returns (result: nat)
    requires repo.Valid() && repo.data.Keys <= repo.preInstalled.Keys
    ensures result == Reserved(compressed, repo)
    ensures (forall x :: x in compressed ==>
      Versions32(repo, x.apex) && Settled(repo, x.apex) && !LowerSharedLibs(repo, x.apex)) ==>
      result == Required(compressed, repo)
    ensures (forall x :: x in compressed ==> Versions32(repo, x.apex) && !Overlooked(repo, x.apex)) ==>
      result >= Required(compressed, repo)
  {
    hide ShouldAllocateSpaceForDecompression;
    result := 0;
    for i := 0 to |compressed|
      invariant result == Reserved(compressed[..i], repo)
    {
      assert compressed[..i + 1][..i] == compressed[..i];
      if ShouldAllocateSpaceForDecompression(compressed[i].apex.name, compressed[i].apex.version, repo) {
        result := result + compressed[i].size;
      }
    }
    assert compressed[..|compressed|] == compressed;
    ReservedCoversRequired(compressed, repo);
  }

  lemma {:induction false} ReservedCoversRequired(xs: seq<Incoming>, repo: ApexFileRepository)
    requires repo.Valid() && repo.data.Keys <= repo.preInstalled.Keys
    ensures (forall x :: x in xs ==>
      Versions32(repo, x.apex) && Settled(repo, x.apex) && !LowerSharedLibs(repo, x.apex)) ==>
      Reserved(xs, repo) == Required(xs, repo)
    ensures (forall x :: x in xs ==> Versions32(repo, x.apex) && !Overlooked(repo, x.apex)) ==>
      Reserved(xs, repo) >= Required(xs, repo)
  {
    hide ShouldAllocateSpaceForDecompression, MustDecompress, Settled, LowerSharedLibs, Overlooked, Versions32, Excess;
    if xs != [] {
      var x := xs[|xs| - 1];
      ReservedCoversRequired(xs[..|xs| - 1], repo);
      if Versions32(repo, x.apex) {
        ReservationAgrees(repo, x.apex);
        if Settled(repo, x.apex) {
          ReservationAgreesWhenSettled(repo, x.apex);
        }
      }
    }
  }
}
