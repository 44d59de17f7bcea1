/** The repository of APEX files on the device: scanning built-in and data directories
    (apexd/apex_file_repository.cpp) and choosing what to activate (apexd/apexd.cpp:2620-2709). */
module Repository {
  import opened Basics
  import opened Packages

  datatype ApexFile = ApexFile(path: string, apex: Apex)

  /** A directory entry: its path, the APEX it opens as, and its real path. */
  datatype Listed = Listed(path: string, content: Option<Apex>, realpath: Option<string>)

  datatype ScanStatus = Scanned | Failed | Fatal

  const CAPEX_SUFFIX := ".capex"

  function ConsumeSuffix(s: string, suffix: string): string {
    if EndsWith(s, suffix) then s[..|s| - |suffix|] else s
  }

  function ConsumeApexPackageSuffix(path: string): string {
    ConsumeSuffix(ConsumeSuffix(path, APEX_SUFFIX), CAPEX_SUFFIX)
  }

  function Basename(path: string): (name: string)
    ensures |name| <= |path|
  {
    if path == "" then ""
    else if path[|path| - 1] == '/' then ""
    else Basename(path[..|path| - 1]) + [path[|path| - 1]]
  }

  lemma {:induction false} BasenameOf(dir: string, name: string)
    requires '/' !in name
    ensures Basename(dir + "/" + name) == name
  {
    var path := dir + "/" + name;
    if name != "" {
      assert path[..|path| - 1] == dir + "/" + name[..|name| - 1];
      BasenameOf(dir, name[..|name| - 1]);
    }
  }

  /** A file of package "p" in /vendor/apex. */
  function VendorFile(filename: string, key: string): Listed {
    Listed("/vendor/apex/" + filename, Some(Apex("p", 1, key, "", false, false)), Some("/vendor/apex" + "/" + filename))
  }

  function AsFile(f: Listed): ApexFile
    requires f.content.Some?
  {
    ApexFile(f.path, f.content.value)
  }

  class ApexFileRepository {
    const enforceMultiInstallPartition: bool
    const ignoreDuplicateApexDefinitions: bool
    const developmentBuild: bool
    const selectPrefixes: seq<string>
    const properties: map<string, string>
    const decompressionDir: string

    var preInstalled: map<string, ApexFile>
    var data: map<string, ApexFile>
    var multiInstallKeys: map<string, set<string>>

    ghost predicate Valid()
      reads `preInstalled, `data
    {
      && (forall n :: n in preInstalled ==> preInstalled[n].apex.name == n)
      && (forall n :: n in data ==> data[n].apex.name == n)
    }

    /** GetApexSelectFilenameFromProp: the first non-empty property wins. */
    function SelectFilename(name: string, prefixes: seq<string>): string {
      if prefixes == [] then ""
      else
        var prop := prefixes[0] + name;
        if prop in properties && properties[prop] != "" then ConsumeApexPackageSuffix(properties[prop])
        else SelectFilename(name, prefixes[1..])
    }

    function Select(name: string): string {
      SelectFilename(name, selectPrefixes)
    }

    /** A file of a multi-install package, in a place where such files may be. */
    predicate Eligible(f: Listed, name: string) {
      && f.content.Some? && f.content.value.name == name && Select(name) != ""
      && f.realpath.Some? && (enforceMultiInstallPartition ==> StartsWith(f.realpath.value, "/vendor/apex/"))
    }

    /** GetPublicKey, outside a virtual machine. */
    function GetPublicKey(name: string): (key: Option<string>)
      requires Valid()
      reads `preInstalled, `data
      ensures key.Some? <==> name in preInstalled
    {
      if name in preInstalled then Some(preInstalled[name].apex.key) else None
    }

    predicate IsDecompressedApex(f: ApexFile) {
      StartsWith(f.path, decompressionDir)
    }

    predicate IsPreInstalledApex(f: ApexFile)
      reads `preInstalled
    {
      f.apex.name in preInstalled && (preInstalled[f.apex.name].path == f.path || IsDecompressedApex(f))
    }

    predicate IsSelected(f: Listed, name: string) {
      Eligible(f, name) && ConsumeApexPackageSuffix(Basename(f.realpath.value)) == Select(name)
    }

    /** A file that a scan may put into the pre-installed store. */
    predicate Meant(f: Listed, name: string) {
      if Select(name) != "" then IsSelected(f, name) else f.content.Some? && f.content.value.name == name
    }

    /** The first file, in listing order, that is meant. */
    function FirstMeant(files: seq<Listed>, name: string): (r: Option<ApexFile>)
      ensures r.Some? ==> r.value.apex.name == name
    {
      if files == [] then None
      else
        var init, last := files[..|files| - 1], files[|files| - 1];
        if FirstMeant(init, name).Some? then FirstMeant(init, name)
        else if Meant(last, name) then Some(AsFile(last)) else None
    }

    /** The key that a file adds to the keys seen of a multi-install package. */
    function KeyOf(f: Listed, name: string): set<string> {
      if Eligible(f, name) then {f.content.value.key} else {}
    }

    lemma KeyOfEligible(f: Listed, name: string)
      ensures Eligible(f, name) <==> KeyOf(f, name) != {}
    { }

    /** The public keys of the eligible files of a multi-install package. */
    function Keys(files: seq<Listed>, name: string): set<string> {
      set f | f in files && Eligible(f, name) :: f.content.value.key
    }

    function KeysAt(keys: map<string, set<string>>, name: string): set<string> {
      if name in keys then keys[name] else {}
    }

    /** A multi-install package with two different keys among its eligible files. */
    predicate Mixed(keys: map<string, set<string>>, files: seq<Listed>, name: string) {
      Keys(files, name) != {} && Several(KeysAt(keys, name) + Keys(files, name))
    }

    predicate Several(keys: set<string>) {
      |keys| > 1
    }

    lemma {:induction false} SeveralStays(a: set<string>, b: set<string>)
      requires a <= b && Several(a)
      ensures Several(b)
    {
      assert b == a + (b - a);
    }

    /** What the pre-installed store holds for `name` after a scan of `files`: nothing for a
        multi-install package with two different keys, wherever in the listing they are; otherwise the
        entry it had, or the first file that is meant. */
    function StoreAfter(before: map<string, ApexFile>, keys: map<string, set<string>>, files: seq<Listed>,
                        name: string): Option<ApexFile> {
      if Mixed(keys, files, name) then None
      else if name in before then Some(before[name])
      else FirstMeant(files, name)
    }

    lemma {:induction false} OneMoreFile(files: seq<Listed>, f: Listed, name: string)
      ensures Keys(files + [f], name) == Keys(files, name) + KeyOf(f, name)
      ensures FirstMeant(files + [f], name) ==
        if FirstMeant(files, name).Some? then FirstMeant(files, name)
        else if Meant(f, name) then Some(AsFile(f)) else None
    {
      hide Eligible, Meant, Select;
      assert (files + [f])[..|files|] == files;
      assert forall g :: g in files + [f] <==> g in files || g == f;
    }

    /** A mismatch, once found, stays found. */
    lemma {:induction false} MixedStays(keys: map<string, set<string>>, files: seq<Listed>, f: Listed, name: string)
      requires Mixed(keys, files, name)
      ensures Mixed(keys, files + [f], name)
    {
      hide Eligible, Meant, Select, Several;
      OneMoreFile(files, f, name);
      SeveralStays(KeysAt(keys, name) + Keys(files, name), KeysAt(keys, name) + Keys(files + [f], name));
    }

    /** How one file changes the entry of a package whose eligible files had the keys `seen`. */
    function After(entry: Option<ApexFile>, seen: set<string>, f: Listed, name: string): Option<ApexFile> {
      if Eligible(f, name) && Several(seen + KeyOf(f, name)) then None
      else if entry.None? && Meant(f, name) then Some(AsFile(f))
      else entry
    }

    lemma {:induction false} StoreAfterOneMore(before: map<string, ApexFile>, keys: map<string, set<string>>,
                                               files: seq<Listed>, f: Listed, name: string)
      ensures StoreAfter(before, keys, files + [f], name)
           == After(StoreAfter(before, keys, files, name), KeysAt(keys, name) + Keys(files, name), f, name)
    {
      hide Eligible, Meant, Select, Keys, FirstMeant, KeysAt, KeyOf, Several;
      KeyOfEligible(f, name);
      OneMoreFile(files, f, name);
      var old_, one := Keys(files, name), KeyOf(f, name);
      assert KeysAt(keys, name) + (old_ + one) == KeysAt(keys, name) + old_ + one;
      if Mixed(keys, files, name) {
        MixedStays(keys, files, f, name);
        if Eligible(f, name) {
          SeveralStays(KeysAt(keys, name) + old_, KeysAt(keys, name) + old_ + one);
        } else if Meant(f, name) {
          OnlyMultiInstallIsEligible(files, f, name);
        }
      } else if !Eligible(f, name) {
        assert old_ + one == old_;
      } else {
        assert one != {};
      }
    }

    /** A file is meant without being eligible only if its package is not multi-install; then no file is eligible. */
    lemma OnlyMultiInstallIsEligible(files: seq<Listed>, f: Listed, name: string)
      requires Meant(f, name) && !Eligible(f, name)
      ensures Keys(files, name) == {}
    { }

    predicate Clash(f: Listed, g: Listed, name: string) {
      Eligible(f, name) && Eligible(g, name) && f.content.value.key != g.content.value.key
    }

    /** Two eligible files with different keys keep a multi-install package out of the store,
        wherever in the listing they are; and whether the package is there does not depend on the order. */
    lemma {:induction false} MultiInstallIgnoresOrder(before: map<string, ApexFile>, files: seq<Listed>,
                                                      files': seq<Listed>, name: string)
      requires forall f :: f in files <==> f in files'
      ensures Mixed(map[], files, name) <==>
        exists f, g :: f in files && g in files && Clash(f, g, name)
      ensures Mixed(map[], files, name) ==> StoreAfter(before, map[], files, name) == None
      ensures StoreAfter(before, map[], files, name).Some? <==> StoreAfter(before, map[], files', name).Some?
    {
      hide Eligible, Meant, Select, Clash;
      assert Keys(files, name) == Keys(files', name);
      assert KeysAt(map[], name) + Keys(files, name) == Keys(files, name);
      SeveralKeys(files, name);
      MeantIsFound(files, name);
      MeantIsFound(files', name);
    }

    lemma {:induction false} SeveralKeys(files: seq<Listed>, name: string)
      ensures Several(Keys(files, name)) <==>
        exists f, g :: f in files && g in files && Clash(f, g, name)
    {
      hide IsSelected, Select, StartsWith;
      var keys := Keys(files, name);
      if Several(keys) {
        var k :| k in keys;
        assert |keys - {k}| == |keys| - 1;
        var l :| l in keys - {k};
      } else if f, g :| f in files && g in files && Clash(f, g, name) {
        SeveralStays({f.content.value.key, g.content.value.key}, keys);
      }
    }

    lemma {:induction false} MeantIsFound(files: seq<Listed>, name: string)
      ensures FirstMeant(files, name).Some? <==> exists f :: f in files && Meant(f, name)
      ensures FirstMeant(files, name).Some? ==>
        exists f :: f in files && Meant(f, name) && FirstMeant(files, name).value == AsFile(f)
    {
      hide Meant;
      if files != [] {
        MeantIsFound(files[..|files| - 1], name);
        assert files == files[..|files| - 1] + [files[|files| - 1]];
      }
    }

    /** ScanBuiltInDir, given the directory's listing, or None if there is no such directory. */
    method ScanBuiltInDir(listing: Option<seq<Listed>>) returns (status: ScanStatus)
      requires Valid()
      modifies `preInstalled, `multiInstallKeys
      ensures Valid()
      ensures listing.None? ==>
        status == Scanned && preInstalled == old(preInstalled) && multiInstallKeys == old(multiInstallKeys)
      ensures listing.Some? && status == Scanned ==>
        && multiInstallKeys == map[]
        && (forall f :: f in listing.value ==> f.content.Some?)
        && (forall n :: Get(preInstalled, n) == StoreAfter(old(preInstalled), old(multiInstallKeys), listing.value, n))
        && (forall f :: f in listing.value && Select(f.content.value.name) == "" ==> Agrees(preInstalled, f))
      ensures listing.Some? && status == Failed ==> exists f :: f in listing.value && f.content.None?
      ensures listing.Some? && status == Fatal ==>
        exists f :: f in listing.value && IsDuplicate(preInstalled, f)
    {
      hide ScanState, Eligible, IsSelected, Keys, StoreAfter, After, KeysAt, Select, Agrees, MayBeDuplicate;
      if listing.None? {
        return Scanned;
      }
      var files := listing.value;
      ghost var before, keys := preInstalled, multiInstallKeys;
      NothingScanned(before, keys);
      for i := 0 to |files|
        invariant Valid() && ScanState(preInstalled, multiInstallKeys, before, keys, files[..i])
      {
        var f := files[i];
        assert files[..i + 1] == files[..i] + [f];
        if f.content.None? {
          return Failed;
        }
        ghost var store, seen := preInstalled, multiInstallKeys;
        var fatal := ScanOne(f);
        if fatal {
          assert f in files && IsDuplicate(preInstalled, f);
          return Fatal;
        }
        ScanTurn(store, seen, preInstalled, multiInstallKeys, before, keys, files[..i], f);
      }
      assert files[..|files|] == files;
      ScanDone(preInstalled, multiInstallKeys, before, keys, files);
      multiInstallKeys := map[];
      status := Scanned;
    }

    /** The two maps after a scan of `files` that started with `before` and `keys`. */
    ghost predicate ScanState(store: map<string, ApexFile>, seen: map<string, set<string>>,
                              before: map<string, ApexFile>, keys: map<string, set<string>>, files: seq<Listed>) {
      && (forall n :: Get(store, n) == StoreAfter(before, keys, files, n))
      && (forall n :: KeysAt(seen, n) == KeysAt(keys, n) + Keys(files, n))
      && (forall f :: f in files ==> f.content.Some? && (Select(f.content.value.name) == "" ==> Agrees(store, f)))
    }

    lemma {:induction false} ScanTurn(store: map<string, ApexFile>, seen: map<string, set<string>>,
                                      store': map<string, ApexFile>, seen': map<string, set<string>>,
                                      before: map<string, ApexFile>, keys: map<string, set<string>>,
                                      files: seq<Listed>, f: Listed)
      requires ScanState(store, seen, before, keys, files) && f.content.Some?
      requires forall n :: Get(store', n) == After(Get(store, n), KeysAt(seen, n), f, n)
      requires forall n :: KeysAt(seen', n) == KeysAt(seen, n) + KeyOf(f, n)
      requires Select(f.content.value.name) == "" ==> Agrees(store', f)
      requires forall n :: Select(n) == "" && n in store ==> n in store' && store'[n] == store[n]
      ensures ScanState(store', seen', before, keys, files + [f])
    {
      hide Select, Eligible, Meant, Keys, StoreAfter, KeysAt, KeyOf, After, MayBeDuplicate;
      forall n ensures Get(store', n) == StoreAfter(before, keys, files + [f], n) {
        StoreAfterOneMore(before, keys, files, f, n);
      }
      forall n ensures KeysAt(seen', n) == KeysAt(keys, n) + Keys(files + [f], n) {
        OneMoreFile(files, f, n);
        assert KeysAt(keys, n) + (Keys(files, n) + KeyOf(f, n)) == KeysAt(keys, n) + Keys(files, n) + KeyOf(f, n);
      }
    }

    lemma ScanDone(store: map<string, ApexFile>, seen: map<string, set<string>>,
                   before: map<string, ApexFile>, keys: map<string, set<string>>, files: seq<Listed>)
      requires ScanState(store, seen, before, keys, files)
      ensures forall n :: Get(store, n) == StoreAfter(before, keys, files, n)
      ensures forall f :: f in files ==> f.content.Some? && (Select(f.content.value.name) == "" ==> Agrees(store, f))
    { }

    lemma NothingScanned(before: map<string, ApexFile>, keys: map<string, set<string>>)
      ensures ScanState(before, keys, before, keys, [])
    {
      assert forall n :: Keys([], n) == {};
    }

    lemma WhatIsMeant(f: Listed)
      requires f.content.Some?
      ensures var name := f.content.value.name;
        && (Eligible(f, name) <==>
             && Select(name) != "" && f.realpath.Some?
             && (enforceMultiInstallPartition ==> StartsWith(f.realpath.value, "/vendor/apex/")))
        && (Meant(f, name) <==>
             (Select(name) != "" ==>
                Eligible(f, name) && ConsumeApexPackageSuffix(Basename(f.realpath.value)) == Select(name)))
        && (forall n :: n != name ==> !Eligible(f, n) && !Meant(f, n))
    { }

    // ---------- All built-in directories ----------

    /** The entry of a package after a scan that begins without keys. */
    function EntryAfter(entry: Option<ApexFile>, listing: Option<seq<Listed>>, name: string): Option<ApexFile> {
      if listing.None? then entry
      else if Mixed(map[], listing.value, name) then None
      else if entry.Some? then entry
      else FirstMeant(listing.value, name)
    }

    function EntryAfterAll(entry: Option<ApexFile>, dirs: seq<Option<seq<Listed>>>, name: string): Option<ApexFile> {
      if dirs == [] then entry
      else EntryAfter(EntryAfterAll(entry, dirs[..|dirs| - 1], name), dirs[|dirs| - 1], name)
    }

    /** AddPreInstalledApex: scans the directories in order and stops at the first error. */
    method AddPreInstalledApex(dirs: seq<Option<seq<Listed>>>) returns (status: ScanStatus)
      requires Valid() && multiInstallKeys == map[]
      modifies `preInstalled, `multiInstallKeys
      ensures Valid()
      ensures status == Scanned ==>
        && multiInstallKeys == map[]
        && forall n :: Get(preInstalled, n) == EntryAfterAll(old(Get(preInstalled, n)), dirs, n)
      ensures status == Failed ==> exists i, f :: ListedIn(dirs, i, f) && f.content.None?
      ensures status == Fatal ==> exists i, f :: ListedIn(dirs, i, f) && IsDuplicate(preInstalled, f)
    {
      hide Mixed, FirstMeant, Agrees, Select;
      for i := 0 to |dirs|
        invariant Valid() && multiInstallKeys == map[]
        invariant forall n :: Get(preInstalled, n) == EntryAfterAll(old(Get(preInstalled, n)), dirs[..i], n)
      {
        assert dirs[..i + 1][..i] == dirs[..i];
        ghost var before := preInstalled;
        status := ScanBuiltInDir(dirs[i]);
        if status != Scanned {
          var f :| f in dirs[i].value && if status == Failed then f.content.None? else IsDuplicate(preInstalled, f);
          assert ListedIn(dirs, i, f);
          return;
        }
        forall n ensures Get(preInstalled, n) == EntryAfter(Get(before, n), dirs[i], n) { }
      }
      assert dirs[..|dirs|] == dirs;
      status := Scanned;
    }

    predicate MixedIn(listing: Option<seq<Listed>>, name: string) {
      listing.Some? && Mixed(map[], listing.value, name)
    }

    ghost predicate MeantIn(listing: Option<seq<Listed>>, name: string) {
      listing.Some? && exists f :: f in listing.value && Meant(f, name)
    }

    /** Directory `i` has a file meant for the package, and neither it nor a later one is itself mixed. */
    ghost predicate LastingEntry(dirs: seq<Option<seq<Listed>>>, name: string, i: int) {
      0 <= i < |dirs| && MeantIn(dirs[i], name) && forall j :: i <= j < |dirs| ==> !MixedIn(dirs[j], name)
    }

    /** Scanning all directories, from an empty store: a package is there exactly if, after the last
        directory that is itself mixed, some directory has a file meant for it. */
    lemma {:induction false} PresentIffMeantAfterLastMixed(dirs: seq<Option<seq<Listed>>>, name: string)
      ensures EntryAfterAll(None, dirs, name).Some? <==> exists i :: LastingEntry(dirs, name, i)
    {
      hide Mixed, Meant;
      if dirs != [] {
        var n := |dirs| - 1;
        var init := dirs[..n];
        PresentIffMeantAfterLastMixed(init, name);
        if dirs[n].Some? {
          MeantIsFound(dirs[n].value, name);
        }
        if i :| LastingEntry(init, name, i) && !MixedIn(dirs[n], name) {
          assert LastingEntry(dirs, name, i);
        }
        if MeantIn(dirs[n], name) && !MixedIn(dirs[n], name) {
          assert LastingEntry(dirs, name, n);
        }
        if i :| LastingEntry(dirs, name, i) && i < n {
          assert LastingEntry(init, name, i);
        }
      }
    }

    /** Two eligible files of a package, in whichever directories, have different keys. */
    ghost predicate MixedOverall(dirs: seq<Option<seq<Listed>>>, name: string) {
      exists i, f, j, g :: ListedIn(dirs, i, f) && ListedIn(dirs, j, g) && Clash(f, g, name)
    }

    ghost predicate ListedIn(dirs: seq<Option<seq<Listed>>>, i: int, f: Listed) {
      0 <= i < |dirs| && dirs[i].Some? && f in dirs[i].value
    }

    /** A mismatch over all the directories keeps the package out exactly if every directory with a file meant
        for it is itself mixed, or comes before one that is. So a mismatch between directories only is never
        seen, and one within a directory is forgotten by a later directory. */
    lemma {:induction false} MismatchKeepsOutIff(dirs: seq<Option<seq<Listed>>>, name: string)
      requires MixedOverall(dirs, name)
      ensures EntryAfterAll(None, dirs, name) == None <==>
        forall i :: 0 <= i < |dirs| && MeantIn(dirs[i], name) ==> exists j :: i <= j < |dirs| && MixedIn(dirs[j], name)
    {
      hide Mixed, Meant, Clash, EntryAfterAll;
      PresentIffMeantAfterLastMixed(dirs, name);
      if i :| 0 <= i < |dirs| && MeantIn(dirs[i], name) && !exists j :: i <= j < |dirs| && MixedIn(dirs[j], name) {
        assert LastingEntry(dirs, name, i);
      }
      if i :| LastingEntry(dirs, name, i) {
        assert 0 <= i < |dirs| && MeantIn(dirs[i], name);
      }
    }

    /** One package, selected by a property, and two files with different keys. Together in a directory they
        keep it out; in two directories they do not; and the second directory puts it back. */
    lemma {:induction false} MismatchAcrossDirectories()
      requires selectPrefixes == ["select."] && properties == map["select.p" := "x"]
      ensures var f, g := VendorFile("x.apex", "k1"), VendorFile("y.apex", "k2");
        && EntryAfterAll(None, [Some([f, g])], "p") == None && MixedOverall([Some([f, g])], "p")
        && EntryAfterAll(None, [Some([f]), Some([g])], "p").Some? && MixedOverall([Some([f]), Some([g])], "p")
        && EntryAfterAll(None, [Some([f, g]), Some([f])], "p").Some? && MixedOverall([Some([f, g]), Some([f])], "p")
    {
      var f, g := VendorFile("x.apex", "k1"), VendorFile("y.apex", "k2");
      ExampleFiles(f, g);
      hide *;
      MismatchTogether(f, g, "p");
      MismatchApart(f, g, "p");
      MismatchForgotten(f, g, "p");
    }

    lemma {:induction false} MismatchTogether(f: Listed, g: Listed, name: string)
      requires Clash(f, g, name)
      ensures EntryAfterAll(None, [Some([f, g])], name) == None && MixedOverall([Some([f, g])], name)
    {
      hide Meant, Clash, Mixed, EntryAfterAll, Eligible, Select;
      var dirs := [Some([f, g])];
      MixedTogether(f, g, name);
      PresentIffMeantAfterLastMixed(dirs, name);
      assert forall i :: 0 <= i < |dirs| ==> MixedIn(dirs[i], name);
      assert ListedIn(dirs, 0, f) && ListedIn(dirs, 0, g);
    }

    lemma {:induction false} MismatchApart(f: Listed, g: Listed, name: string)
      requires Clash(f, g, name) && Meant(f, name)
      ensures EntryAfterAll(None, [Some([f]), Some([g])], name).Some? && MixedOverall([Some([f]), Some([g])], name)
    {
      hide Meant, Clash, Mixed, EntryAfterAll, Eligible, Select;
      var dirs := [Some([f]), Some([g])];
      NotMixedAlone(f, name);
      NotMixedAlone(g, name);
      PresentIffMeantAfterLastMixed(dirs, name);
      assert f in dirs[0].value && LastingEntry(dirs, name, 0);
      assert ListedIn(dirs, 0, f) && ListedIn(dirs, 1, g);
    }

    lemma {:induction false} MismatchForgotten(f: Listed, g: Listed, name: string)
      requires Clash(f, g, name) && Meant(f, name)
      ensures EntryAfterAll(None, [Some([f, g]), Some([f])], name).Some?
      ensures MixedOverall([Some([f, g]), Some([f])], name)
    {
      hide Meant, Clash, Mixed, EntryAfterAll, Eligible, Select;
      var dirs := [Some([f, g]), Some([f])];
      NotMixedAlone(f, name);
      PresentIffMeantAfterLastMixed(dirs, name);
      assert f in dirs[1].value && LastingEntry(dirs, name, 1);
      assert ListedIn(dirs, 0, f) && ListedIn(dirs, 0, g);
    }

    lemma MixedTogether(f: Listed, g: Listed, name: string)
      requires Clash(f, g, name)
      ensures Mixed(map[], [f, g], name)
    {
      hide Clash, Mixed;
      MultiInstallIgnoresOrder(map[], [f, g], [f, g], name);
      assert f in [f, g] && g in [f, g];
    }

    lemma NotMixedAlone(f: Listed, name: string)
      ensures !Mixed(map[], [f], name)
    {
      MultiInstallIgnoresOrder(map[], [f], [f], name);
    }

    lemma ExampleFiles(f: Listed, g: Listed)
      requires selectPrefixes == ["select."] && properties == map["select.p" := "x"]
      requires f == VendorFile("x.apex", "k1") && g == VendorFile("y.apex", "k2")
      ensures Meant(f, "p") && Clash(f, g, "p")
    {
      hide Basename;
      assert Select("p") == "x" by {
        assert selectPrefixes[0] + "p" == "select.p";
        assert !EndsWith("x", APEX_SUFFIX) && !EndsWith("x", CAPEX_SUFFIX);
      }
      BasenameOf("/vendor/apex", "x.apex");
      assert "x.apex"[1..] == APEX_SUFFIX && "x.apex"[..1] == "x";
      assert ConsumeApexPackageSuffix("x.apex") == "x";
      assert StartsWith(f.realpath.value, "/vendor/apex/") && StartsWith(g.realpath.value, "/vendor/apex/");
    }

    /** One turn of the scan: the new state of the two maps, and whether the daemon aborts. */
    method ScanOne(f: Listed) returns (fatal: bool)
      requires Valid() && f.content.Some?
      modifies `preInstalled, `multiInstallKeys
      ensures Valid()
      ensures forall n ::
        Get(preInstalled, n) == After(old(Get(preInstalled, n)), old(KeysAt(multiInstallKeys, n)), f, n)
      ensures forall n :: KeysAt(multiInstallKeys, n) == old(KeysAt(multiInstallKeys, n)) + KeyOf(f, n)
      ensures Select(f.content.value.name) == "" ==> (fatal <==> !Agrees(preInstalled, f))
      ensures Select(f.content.value.name) != "" ==> !fatal
      ensures forall n ::
        Select(n) == "" && n in old(preInstalled) ==> n in preInstalled && preInstalled[n] == old(preInstalled)[n]
    {
      hide Several, Basename, ConsumeApexPackageSuffix, Select, Eligible, Meant, IsSelected, StartsWith, MayBeDuplicate;
      fatal := false;
      WhatIsMeant(f);
      var name, key := f.content.value.name, f.content.value.key;
      var selectFilename := Select(name);
      if selectFilename != "" {
        if f.realpath.None? || (enforceMultiInstallPartition && !StartsWith(f.realpath.value, "/vendor/apex/")) {
          return;
        }
        var seen := KeysAt(multiInstallKeys, name) + {key};
        multiInstallKeys := multiInstallKeys[name := seen];
        if Several(seen) {
          preInstalled := preInstalled - {name};
          return;
        }
        if ConsumeApexPackageSuffix(Basename(f.realpath.value)) == selectFilename && name !in preInstalled {
          preInstalled := preInstalled[name := AsFile(f)];
        }
        return;
      }
      if name !in preInstalled {
        preInstalled := preInstalled[name := AsFile(f)];
      } else if preInstalled[name].path != f.path {
        fatal := !MayBeDuplicate(name);
      } else {
        fatal := preInstalled[name].apex.key != key;
      }
    }

    /** Duplicate definitions that are only logged. */
    predicate MayBeDuplicate(name: string) {
      ignoreDuplicateApexDefinitions || (StartsWith(name, "com.android.vndk.") && developmentBuild)
    }

    /** A file that makes the scan abort: another file of its package, or the same one with another key. */
    predicate IsDuplicate(store: map<string, ApexFile>, f: Listed) {
      f.content.Some? && Select(f.content.value.name) == "" && !Agrees(store, f)
    }

    /** The file is the stored one with the stored key, or a tolerated duplicate. */
    predicate Agrees(store: map<string, ApexFile>, f: Listed) {
      f.content.Some? && f.content.value.name in store &&
      var stored := store[f.content.value.name];
      if stored.path == f.path then stored.apex.key == f.content.value.key else MayBeDuplicate(f.content.value.name)
    }

    /** An opened data file of a pre-installed package, signed with the same key, that is not a decompressed APEX. */
    predicate Trusted(f: Listed, name: string)
      reads `preInstalled
    {
      && f.content.Some? && f.content.value.name == name
      && name in preInstalled && preInstalled[name].apex.key == f.content.value.key
      && !EndsWith(f.path, DECOMPRESSED_SUFFIX)
    }

    /** The chosen entry: of the entry before and the trusted files the highest version, and of equal
        versions the first. */
    ghost predicate IsBest(best: Option<ApexFile>, before: Option<ApexFile>, files: seq<Listed>, name: string)
      reads `preInstalled
    {
      && (forall i :: 0 <= i < |files| && Trusted(files[i], name) ==>
            best.Some? && files[i].content.value.version <= best.value.apex.version)
      && (before.Some? ==> best.Some? && before.value.apex.version <= best.value.apex.version)
      && (best.Some? && best != before ==> exists i :: IsFirstBest(best.value, before, files, i, name))
    }

    ghost predicate IsFirstBest(best: ApexFile, before: Option<ApexFile>, files: seq<Listed>, i: nat, name: string)
      reads `preInstalled
    {
      && i < |files| && Trusted(files[i], name) && best == AsFile(files[i])
      && (before.Some? ==> before.value.apex.version < best.apex.version)
      && (forall j :: 0 <= j < i && Trusted(files[j], name) ==> files[j].content.value.version < best.apex.version)
    }

    lemma {:induction false} BestOfOneMore(best: Option<ApexFile>, before: Option<ApexFile>, files: seq<Listed>,
                                           f: Listed, name: string)
      requires IsBest(best, before, files, name)
      ensures !Trusted(f, name) ==> IsBest(best, before, files + [f], name)
      ensures Trusted(f, name) ==>
        if best.None? || best.value.apex.version < f.content.value.version
          then IsBest(Some(AsFile(f)), before, files + [f], name)
        else IsBest(best, before, files + [f], name)
    {
      hide EndsWith;
      var more := files + [f];
      assert forall i :: 0 <= i < |files| ==> more[i] == files[i];
      if best.Some? && best != before {
        var i: nat :| IsFirstBest(best.value, before, files, i, name);
        assert IsFirstBest(best.value, before, more, i, name);
      }
      if Trusted(f, name) && (best.None? || best.value.apex.version < f.content.value.version) {
        assert IsFirstBest(AsFile(f), before, more, |files|, name);
      }
    }

    /** The chosen entry is determined, and its version does not depend on the order of the listing. */
    lemma {:induction false} BestVersionIgnoresOrder(best: Option<ApexFile>, best': Option<ApexFile>,
                                                     before: Option<ApexFile>,
                                                     files: seq<Listed>, files': seq<Listed>, name: string)
      requires IsBest(best, before, files, name) && IsBest(best', before, files', name)
      requires forall f :: f in files <==> f in files'
      ensures best.Some? == best'.Some?
      ensures best.Some? ==> best.value.apex.version == best'.value.apex.version
      ensures files == files' ==> best == best'
    {
      hide EndsWith;
      BestIsNotLower(best, best', before, files, files', name);
      BestIsNotLower(best', best, before, files', files, name);
      if files == files' && best != best' {
        if best != before {
          var i: nat :| IsFirstBest(best.value, before, files, i, name);
          if best' != before {
            var j: nat :| IsFirstBest(best'.value, before, files, j, name);
          }
        }
      }
    }

    lemma {:induction false} BestIsNotLower(best: Option<ApexFile>, best': Option<ApexFile>, before: Option<ApexFile>,
                                            files: seq<Listed>, files': seq<Listed>, name: string)
      requires IsBest(best, before, files, name) && IsBest(best', before, files', name)
      requires forall f :: f in files <==> f in files'
      ensures best.Some? ==> best'.Some? && best.value.apex.version <= best'.value.apex.version
    {
      hide EndsWith;
      if best.Some? && best != before {
        var i: nat :| IsFirstBest(best.value, before, files, i, name);
        assert files[i] in files';
        var j :| 0 <= j < |files'| && files'[j] == files[i];
        assert Trusted(files'[j], name);
      }
    }

    /** AddDataApex, given the directory's listing, or None if there is no such directory. */
    method AddDataApex(listing: Option<seq<Listed>>)
      requires Valid()
      modifies `data
      ensures Valid()
      ensures listing.None? ==> data == old(data)
      ensures listing.Some? ==> forall n :: IsBest(Get(data, n), old(Get(data, n)), listing.value, n)
    {
      hide EndsWith, IsBest, IsFirstBest;
      if listing.None? {
        return;
      }
      var files := listing.value;
      ghost var before := data;
      NothingAdded(before);
      for i := 0 to |files|
        invariant Valid()
        invariant forall n :: IsBest(Get(data, n), Get(before, n), files[..i], n)
      {
        var f := files[i];
        assert files[..i + 1] == files[..i] + [f];
        forall n ensures var d := Get(data, n);
          && (!Trusted(f, n) ==> IsBest(d, Get(before, n), files[..i] + [f], n))
          && (Trusted(f, n) ==>
                if d.None? || d.value.apex.version < f.content.value.version
                  then IsBest(Some(AsFile(f)), Get(before, n), files[..i] + [f], n)
                else IsBest(d, Get(before, n), files[..i] + [f], n))
        {
          BestOfOneMore(Get(data, n), Get(before, n), files[..i], f, n);
        }
        if f.content.None? {
          continue;
        }
        var name := f.content.value.name;
        if name !in preInstalled {
          continue;
        }
        if f.content.value.key != preInstalled[name].apex.key {
          continue;
        }
        if EndsWith(f.path, DECOMPRESSED_SUFFIX) {
          continue;
        }
        if name !in data {
          data := data[name := AsFile(f)];
          continue;
        }
        if f.content.value.version > data[name].apex.version {
          data := data[name := AsFile(f)];
        }
      }
      assert files[..|files|] == files;
    }

    lemma NothingAdded(before: map<string, ApexFile>)
      ensures forall n :: IsBest(Get(before, n), Get(before, n), [], n)
    { }

    /** The files of a package: the pre-installed one, then the one on data. */
    function FilesOf(name: string): seq<ApexFile>
      reads `preInstalled, `data
    {
      if name in preInstalled then
        if name in data then [preInstalled[name]] + [data[name]] else [preInstalled[name]]
      else if name in data then [data[name]]
      else []
    }

    method AllApexFilesByName() returns (grouped: map<string, seq<ApexFile>>)
      requires Valid()
      ensures forall n :: Get(grouped, n) == if FilesOf(n) == [] then None else Some(FilesOf(n))
    {
      hide Grouped;
      grouped := map[];
      var names := List(preInstalled.Keys);
      for i := 0 to |names|
        invariant forall n :: Get(grouped, n) == if n in names[..i] then Some([preInstalled[n]]) else None
      {
        GroupedAt(grouped, preInstalled[names[i]]);
        grouped := Grouped(grouped, preInstalled[names[i]]);
        assert names[..i + 1] == names[..i] + [names[i]];
      }
      assert names[..|names|] == names;
      grouped := AddGroups(grouped);
    }

    /** The second half of the collection: the files on data. */
    method AddGroups(before: map<string, seq<ApexFile>>) returns (grouped: map<string, seq<ApexFile>>)
      requires Valid()
      requires forall n :: Get(before, n) == if n in preInstalled then Some([preInstalled[n]]) else None
      ensures forall n :: Get(grouped, n) == if FilesOf(n) == [] then None else Some(FilesOf(n))
    {
      hide Grouped;
      grouped := before;
      var names := List(data.Keys);
      for i := 0 to |names|
        invariant forall n :: Get(grouped, n) == if n in names[..i] then Some(FilesOf(n)) else Get(before, n)
      {
        GroupedAt(grouped, data[names[i]]);
        grouped := Grouped(grouped, data[names[i]]);
        assert names[..i + 1] == names[..i] + [names[i]];
      }
      assert names[..|names|] == names;
    }
  }

  lemma GroupedAt(grouped: map<string, seq<ApexFile>>, file: ApexFile)
    ensures forall n :: n != file.apex.name ==> Get(Grouped(grouped, file), n) == Get(grouped, n)
    ensures Get(Grouped(grouped, file), file.apex.name) ==
      Some(if Get(grouped, file.apex.name).Some? then Get(grouped, file.apex.name).value + [file] else [file])
  { }

  /** Adds a file to those of its package. */
  function Grouped(grouped: map<string, seq<ApexFile>>, file: ApexFile): map<string, seq<ApexFile>> {
    grouped[file.apex.name := if file.apex.name in grouped then grouped[file.apex.name] + [file] else [file]]
  }
}
