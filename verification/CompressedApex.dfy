/** Processing of compressed APEXes: reuse, rename or decompress (apexd/apexd.cpp:2713-2901). */
module CompressedApex {
  import opened Basics
  import opened Naming
  import opened Packages
  import opened Repository

  const OTA_SUFFIX := ".ota.apex"
  const ACTIVE_CONTEXT := "u:object_r:staging_data_file"

  /** A file in the decompression directory: what it opens as, whether its hash tree verifies, and its
      SELinux context. */
  datatype Unpacked = Unpacked(content: Option<Apex>, verityOk: bool, context: Option<string>)

  /** The decompression directory by path, and the reserved space. */
  datatype Store = Store(files: map<string, Unpacked>, reserved: set<string>)

  /** How the file system answers: whether rename and remove work and what a renamed file is worth,
      what decompression yields, the context that restorecon sets, and whether reserved space can be freed. */
  datatype World = World(
    renames: bool,
    keeps: bool,
    removes: bool,
    unpacks: Option<Unpacked>,
    restores: Option<string>,
    clears: bool)

  const DAMAGED := Unpacked(None, false, None)

  function PathIn(dir: string, c: Apex, suffix: string): string {
    dir + "/" + c.Id() + suffix
  }

  /** Paths of different packages differ, and so do the two paths of a package. */
  lemma {:induction false} PathsApart(dir: string, a: Apex, b: Apex)
    ensures PathIn(dir, a, DECOMPRESSED_SUFFIX) != PathIn(dir, b, OTA_SUFFIX)
    ensures a.Id() != b.Id() ==>
      && PathIn(dir, a, DECOMPRESSED_SUFFIX) != PathIn(dir, b, DECOMPRESSED_SUFFIX)
      && PathIn(dir, a, OTA_SUFFIX) != PathIn(dir, b, OTA_SUFFIX)
  {
    hide PackageId;
    var d, o := PathIn(dir, a, DECOMPRESSED_SUFFIX), PathIn(dir, b, OTA_SUFFIX);
    assert d[|d| - 6] == 'd' && o[|o| - 6] == 'a';
    if PathIn(dir, a, DECOMPRESSED_SUFFIX) == PathIn(dir, b, DECOMPRESSED_SUFFIX) {
      AppendInjective(dir + "/" + a.Id(), dir + "/" + b.Id(), DECOMPRESSED_SUFFIX);
      PrefixInjective(dir + "/", a.Id(), b.Id());
    }
    if PathIn(dir, a, OTA_SUFFIX) == PathIn(dir, b, OTA_SUFFIX) {
      AppendInjective(dir + "/" + a.Id(), dir + "/" + b.Id(), OTA_SUFFIX);
      PrefixInjective(dir + "/", a.Id(), b.Id());
    }
  }

  lemma PrefixInjective(p: string, s: string, t: string)
    requires p + s == p + t
    ensures s == t
  {
    assert (p + s)[|p|..] == s && (p + t)[|p|..] == t;
  }

  /** OpenAndValidateDecompressedApex: same key, version and root digest as the capex asks for, and the
      right context. */
  predicate Validates(u: Unpacked, c: Apex) {
    && u.content.Some? && u.verityOk
    && u.content.value.key == c.key && u.content.value.version == c.version && u.content.value.digest == c.digest
    && u.context.Some? && StartsWith(u.context.value, ACTIVE_CONTEXT)
  }

  predicate ValidAt(s: Store, path: string, c: Apex) {
    path in s.files && Validates(s.files[path], c)
  }

  function FileAt(s: Store, path: string, c: Apex): ApexFile
    requires ValidAt(s, path, c)
  {
    ApexFile(path, s.files[path].content.value)
  }

  lemma DamagedIsInvalid(c: Apex)
    ensures !Validates(DAMAGED, c)
  { }

  /** Decompression into a free place gives a file that passes validation. */
  predicate Unpacks(c: Apex, w: World) {
    w.unpacks.Some? && w.restores.Some? && Validates(w.unpacks.value.(context := w.restores), c)
  }

  ghost predicate SameElsewhere(s: Store, t: Store, paths: set<string>) {
    forall p :: p !in paths ==> Get(t.files, p) == Get(s.files, p)
  }

  /** A fresh decompression into `dest`: on success the file is there and validates; on failure it is
      not there, if removing works; and if what was in the way could be removed, success depends on
      decompression only. */
  ghost predicate Fresh(s: Store, t: Store, dest: string, c: Apex, w: World, r: Result<ApexFile>) {
    && t.reserved == (if w.clears then {} else s.reserved)
    && (r.Ok? ==>
          w.unpacks.Some? && ValidAt(t, dest, c) &&
          r.value == FileAt(t, dest, c) && t.files[dest] == w.unpacks.value.(context := w.restores))
    && (r.Error? && w.removes ==> dest !in t.files)
    && (w.removes ==> (r.Ok? <==> Unpacks(c, w)))
  }

  /** What processing at boot does. A valid decompressed file is kept as it is; failing that a valid OTA
      file becomes the decompressed file; failing that there is a fresh decompression. */
  ghost predicate AtBoot(dir: string, s: Store, t: Store, c: Apex, w: World, r: Result<ApexFile>) {
    var place, ota := PathIn(dir, c, DECOMPRESSED_SUFFIX), PathIn(dir, c, OTA_SUFFIX);
    && SameElsewhere(s, t, {place, ota})
    && if ValidAt(s, place, c) then t == s && r == Ok(FileAt(s, place, c))
       else if ValidAt(s, ota, c) && w.renames && w.keeps then
         && t.reserved == s.reserved && ota !in t.files && Get(t.files, place) == Get(s.files, ota)
         && r == Ok(ApexFile(place, s.files[ota].content.value))
       else
         && Fresh(s, t, place, c, w, r)
         && (!ValidAt(s, ota, c) || !w.renames ==> Get(t.files, ota) == Get(s.files, ota))
  }

  /** What processing in the OTA chroot does: the decompressed path is never touched, and files are
      decompressed to the OTA path. */
  ghost predicate InChroot(dir: string, s: Store, t: Store, c: Apex, w: World, r: Result<ApexFile>) {
    var place, ota := PathIn(dir, c, DECOMPRESSED_SUFFIX), PathIn(dir, c, OTA_SUFFIX);
    && SameElsewhere(s, t, {ota})
    && if ValidAt(s, place, c) then t == s && r == Ok(FileAt(s, place, c))
       else if ValidAt(s, ota, c) then t == s && r == Ok(FileAt(s, ota, c))
       else Fresh(s, t, ota, c, w, r)
  }

  ghost predicate Processed(dir: string, s: Store, t: Store, c: Apex, chroot: bool, w: World, r: Result<ApexFile>) {
    if chroot then InChroot(dir, s, t, c, w, r) else AtBoot(dir, s, t, c, w, r)
  }

  class Decompressor {
    const decompressionDir: string
    var store: Store

    constructor (dir: string, initial: Store)
      ensures decompressionDir == dir && store == initial
    {
      decompressionDir := dir;
      store := initial;
    }

    method OpenAndValidate(c: Apex, path: string) returns (r: Result<ApexFile>)
      ensures r == if ValidAt(store, path, c) then Ok(FileAt(store, path, c)) else Error
    {
      if path !in store.files || store.files[path].content.None? {
        return Error;
      }
      var apex := store.files[path].content.value;
      if c.key != apex.key {
        return Error;
      }
      if c.version != apex.version {
        return Error;
      }
      if !store.files[path].verityOk || c.digest != apex.digest {
        return Error;
      }
      if store.files[path].context.None? || !StartsWith(store.files[path].context.value, ACTIVE_CONTEXT) {
        return Error;
      }
      r := Ok(ApexFile(path, apex));
    }

    method RemoveFileIfExists(path: string, w: World)
      modifies `store
      ensures store == if w.removes then old(store).(files := old(store.files) - {path}) else old(store)
    {
      if w.removes {
        store := store.(files := store.files - {path});
      }
    }

    /** ApexFile::Decompress: refuses to overwrite, and removes what it wrote if extraction fails. */
    method Decompress(dest: string, w: World) returns (ok: bool)
      modifies `store
      ensures ok <==> dest !in old(store.files) && w.unpacks.Some?
      ensures dest in old(store.files) ==> store == old(store)
      ensures !ok && w.removes && dest !in old(store.files) ==> store == old(store)
      ensures store.reserved == old(store.reserved)
      ensures ok ==> store.files == old(store.files)[dest := w.unpacks.value]
      ensures !ok ==> forall p :: p != dest ==> Get(store.files, p) == old(Get(store.files, p))
    {
      if dest in store.files {
        return false;
      }
      if w.unpacks.None? {
        store := store.(files := store.files[dest := DAMAGED]);
        RemoveFileIfExists(dest, w);
        return false;
      }
      store := store.(files := store.files[dest := w.unpacks.value]);
      ok := true;
    }

    /** The part of ProcessCompressedApex from "no way to avoid decompression" on. */
    method DecompressAfresh(c: Apex, dest: string, w: World) returns (r: Result<ApexFile>)
      requires w.removes ==> dest !in store.files
      modifies `store
      ensures Fresh(old(store), store, dest, c, w, r) && SameElsewhere(old(store), store, {dest})
    {
      hide StartsWith;
      if w.clears {
        store := store.(reserved := {});
      }
      var ok := Decompress(dest, w);
      if !ok {
        RemoveFileIfExists(dest, w);
        return Error;
      }
      if w.restores.None? {
        RemoveFileIfExists(dest, w);
        return Error;
      }
      store := store.(files := store.files[dest := store.files[dest].(context := w.restores)]);
      r := OpenAndValidate(c, dest);
      if r.Error? {
        RemoveFileIfExists(dest, w);
      }
    }

    method ProcessCompressedApex(c: Apex, otaChroot: bool, w: World) returns (r: Result<ApexFile>)
      modifies `store
      ensures Processed(decompressionDir, old(store), store, c, otaChroot, w, r)
    {
      hide PathIn, Validates, StartsWith;
      DamagedIsInvalid(c);
      PathsApart(decompressionDir, c, c);
      var place, ota := PathIn(decompressionDir, c, DECOMPRESSED_SUFFIX), PathIn(decompressionDir, c, OTA_SUFFIX);
      if place in store.files {
        r := OpenAndValidate(c, place);
        if r.Ok? {
          return;
        }
        if !otaChroot {
          RemoveFileIfExists(place, w);
        }
      }
      if ota in store.files {
        r := OpenAndValidate(c, ota);
        if otaChroot {
          if r.Ok? {
            return;
          }
          RemoveFileIfExists(ota, w);
        } else if r.Ok? && w.renames {
          store := store.(files := (store.files - {ota})[place := if w.keeps then store.files[ota] else DAMAGED]);
          r := OpenAndValidate(c, place);
          if r.Ok? {
            return;
          }
          RemoveFileIfExists(place, w);
        }
      }
      r := DecompressAfresh(c, if otaChroot then ota else place, w);
    }

    /** Processing of a list of compressed APEXes, in order; failures are dropped. */
    method ProcessAll(capexes: seq<Apex>, otaChroot: bool, worlds: seq<World>) returns (apexes: seq<ApexFile>)
      requires |worlds| == |capexes|
      modifies `store
      ensures ProcessedAll(decompressionDir, old(store), store, capexes, otaChroot, worlds, apexes)
    {
      hide Processed, ProcessedAll;
      apexes := [];
      NoneProcessed(decompressionDir, store, otaChroot);
      for i := 0 to |capexes|
        invariant ProcessedAll(decompressionDir, old(store), store, capexes[..i], otaChroot, worlds[..i], apexes)
      {
        var c := capexes[i];
        ghost var before := store;
        var r: Result<ApexFile> := Error;
        if c.compressed {
          r := ProcessCompressedApex(c, otaChroot, worlds[i]);
        }
        assert capexes[..i + 1] == capexes[..i] + [c] && worlds[..i + 1] == worlds[..i] + [worlds[i]];
        OneMoreProcessed(decompressionDir, old(store), before, store, capexes[..i], otaChroot, worlds[..i], apexes, c,
                         worlds[i], r);
        apexes := apexes + Keep(r);
      }
      assert capexes[..|capexes|] == capexes && worlds[..|worlds|] == worlds;
    }
  }

  function Keep(r: Result<ApexFile>): seq<ApexFile> {
    if r.Ok? then [r.value] else []
  }

  ghost predicate Turn(dir: string, s: Store, t: Store, c: Apex, chroot: bool, w: World, r: Result<ApexFile>) {
    if c.compressed then Processed(dir, s, t, c, chroot, w, r) else t == s && r == Error
  }

  /** Processing the list leads from `s` to `t` and returns `apexes`. */
  ghost predicate ProcessedAll(dir: string, s: Store, t: Store, capexes: seq<Apex>, chroot: bool, worlds: seq<World>,
                               apexes: seq<ApexFile>)
    requires |worlds| == |capexes|
    decreases |capexes|
  {
    if capexes == [] then t == s && apexes == []
    else
      var n := |capexes| - 1;
      exists m, init, r ::
        && ProcessedAll(dir, s, m, capexes[..n], chroot, worlds[..n], init)
        && Turn(dir, m, t, capexes[n], chroot, worlds[n], r) && apexes == init + Keep(r)
  }

  lemma NoneProcessed(dir: string, s: Store, chroot: bool)
    ensures ProcessedAll(dir, s, s, [], chroot, [], [])
  { }

  lemma OneMoreProcessed(dir: string, s: Store, m: Store, t: Store, capexes: seq<Apex>, chroot: bool,
                         worlds: seq<World>,
                         apexes: seq<ApexFile>, c: Apex, w: World, r: Result<ApexFile>)
    requires |worlds| == |capexes| && ProcessedAll(dir, s, m, capexes, chroot, worlds, apexes)
    requires Turn(dir, m, t, c, chroot, w, r)
    ensures ProcessedAll(dir, s, t, capexes + [c], chroot, worlds + [w], apexes + Keep(r))
  {
    hide Turn;
    assert (capexes + [c])[..|capexes|] == capexes && (worlds + [w])[..|worlds|] == worlds;
  }

  // What processing achieves

  /** At boot: success returns the decompressed path, where a file that validates is found; failure, when
      removing works, leaves no file there; and no other package's file changes. */
  lemma {:induction false} BootLeavesValidFileOrNone(dir: string, s: Store, t: Store, c: Apex, w: World,
                                                     r: Result<ApexFile>)
    requires Processed(dir, s, t, c, false, w, r)
    ensures var place := PathIn(dir, c, DECOMPRESSED_SUFFIX);
      && (r.Ok? ==> ValidAt(t, place, c) && r.value == FileAt(t, place, c))
      && (r.Error? && w.removes ==> place !in t.files)
      && (w.removes ==> (r.Ok? <==> ValidAt(t, place, c)))
    ensures forall b: Apex, suffix :: b.Id() != c.Id() && suffix in {DECOMPRESSED_SUFFIX, OTA_SUFFIX} ==>
      Get(t.files, PathIn(dir, b, suffix)) == Get(s.files, PathIn(dir, b, suffix))
  {
    hide PathIn, Validates, Unpacks;
    forall b: Apex, suffix | b.Id() != c.Id() && suffix in {DECOMPRESSED_SUFFIX, OTA_SUFFIX}
      ensures Get(t.files, PathIn(dir, b, suffix)) == Get(s.files, PathIn(dir, b, suffix))
    {
      PathsApart(dir, b, c);
      PathsApart(dir, c, b);
    }
  }

  /** In the chroot the decompressed paths of all packages stay as they are, and success returns a path
      with a file that validates. */
  lemma {:induction false} ChrootKeepsDecompressed(dir: string, s: Store, t: Store, c: Apex, w: World,
                                                   r: Result<ApexFile>, b: Apex)
    requires Processed(dir, s, t, c, true, w, r)
    ensures Get(t.files, PathIn(dir, b, DECOMPRESSED_SUFFIX)) == Get(s.files, PathIn(dir, b, DECOMPRESSED_SUFFIX))
    ensures r.Ok? ==> ValidAt(t, r.value.path, c) && r.value == FileAt(t, r.value.path, c)
  {
    hide PathIn, Validates, Unpacks;
    PathsApart(dir, b, c);
  }

  /** After a success, processing the same capex again changes nothing and returns the same file. */
  lemma {:induction false} SecondCallChangesNothing(dir: string, s: Store, t: Store, u: Store, c: Apex, chroot: bool,
                                                    w: World, w': World,
                                                    r: Result<ApexFile>, r': Result<ApexFile>)
    requires Processed(dir, s, t, c, chroot, w, r) && r.Ok?
    requires Processed(dir, t, u, c, chroot, w', r')
    ensures u == t && r' == r
  {
    hide PathIn, Validates, Unpacks;
    PathsApart(dir, c, c);
    if chroot {
      ChrootKeepsDecompressed(dir, s, t, c, w, r, c);
    } else {
      BootLeavesValidFileOrNone(dir, s, t, c, w, r);
    }
  }

  /** The boot after a success in the chroot needs no decompression: it returns the same APEX, at the
      decompressed path, and leaves the reserved space alone. */
  lemma {:induction false} ChrootSparesBoot(dir: string, s: Store, t: Store, u: Store, c: Apex, w: World, w': World,
                                            r: Result<ApexFile>, r': Result<ApexFile>)
    requires Processed(dir, s, t, c, true, w, r) && r.Ok?
    requires w'.renames && w'.keeps && Processed(dir, t, u, c, false, w', r')
    ensures r' == Ok(ApexFile(PathIn(dir, c, DECOMPRESSED_SUFFIX), r.value.apex)) && u.reserved == t.reserved
    ensures r.value.path in t.files && Get(u.files, PathIn(dir, c, DECOMPRESSED_SUFFIX)) == Some(t.files[r.value.path])
  {
    hide PathIn, Validates, Unpacks;
    PathsApart(dir, c, c);
    ChrootKeepsDecompressed(dir, s, t, c, w, r, c);
  }

  /** The list has the file of a package exactly when one that validates is at its decompressed path. */
  ghost predicate Listed(dir: string, t: Store, c: Apex, apexes: seq<ApexFile>) {
    var place := PathIn(dir, c, DECOMPRESSED_SUFFIX);
    if ValidAt(t, place, c) then FileAt(t, place, c) in apexes
    else place !in t.files && forall f :: f in apexes ==> f.path != place
  }

  lemma {:induction false} OthersStayListed(dir: string, s: Store, t: Store, b: Apex, c: Apex, w: World,
                                            r: Result<ApexFile>, apexes: seq<ApexFile>)
    requires Turn(dir, s, t, c, false, w, r) && b.Id() != c.Id()
    ensures Listed(dir, s, b, apexes) ==> Listed(dir, t, b, apexes + Keep(r))
    ensures r.Ok? ==> r.value.path != PathIn(dir, b, DECOMPRESSED_SUFFIX)
  {
    hide PathIn, Validates, Processed;
    PathsApart(dir, b, c);
    if c.compressed {
      BootLeavesValidFileOrNone(dir, s, t, c, w, r);
      assert Get(t.files, PathIn(dir, b, DECOMPRESSED_SUFFIX)) == Get(s.files, PathIn(dir, b, DECOMPRESSED_SUFFIX));
    }
  }

  lemma {:induction false} ProcessedIsListed(dir: string, s: Store, t: Store, c: Apex, w: World, r: Result<ApexFile>,
                                             apexes: seq<ApexFile>)
    requires Processed(dir, s, t, c, false, w, r) && w.removes
    requires forall f :: f in apexes ==> f.path != PathIn(dir, c, DECOMPRESSED_SUFFIX)
    ensures Listed(dir, t, c, apexes + Keep(r))
  {
    hide PathIn, Validates, Processed;
    BootLeavesValidFileOrNone(dir, s, t, c, w, r);
  }

  /** Processing a package again keeps it listed. */
  lemma {:induction false} ListedAgain(dir: string, s: Store, t: Store, c: Apex, w: World, r: Result<ApexFile>,
                                       apexes: seq<ApexFile>)
    requires Processed(dir, s, t, c, false, w, r) && w.removes && Listed(dir, s, c, apexes)
    ensures Listed(dir, t, c, apexes + Keep(r))
  {
    hide PathIn, Validates, Unpacks;
    if !ValidAt(s, PathIn(dir, c, DECOMPRESSED_SUFFIX), c) {
      ProcessedIsListed(dir, s, t, c, w, r, apexes);
    }
  }

  /** No other package of the list has the id of `c`. */
  predicate OwnsId(capexes: seq<Apex>, c: Apex) {
    forall i :: 0 <= i < |capexes| ==> capexes[i] == c || capexes[i].Id() != c.Id()
  }

  /** Removing works when `c` is processed. */
  predicate CanRemove(capexes: seq<Apex>, worlds: seq<World>, c: Apex)
    requires |worlds| == |capexes|
  {
    forall i :: 0 <= i < |capexes| && capexes[i] == c ==> worlds[i].removes
  }

  /** Boot, over a list: when removing works, a package has a file on the returned list exactly when a file that
      validates is at its decompressed path at the end. */
  lemma {:induction false} BootListIsWhatIsValid(dir: string, s: Store, t: Store, capexes: seq<Apex>,
                                                 worlds: seq<World>, apexes: seq<ApexFile>, c: Apex)
    requires |worlds| == |capexes| && c.compressed && OwnsId(capexes, c) && CanRemove(capexes, worlds, c)
    requires ProcessedAll(dir, s, t, capexes, false, worlds, apexes)
    ensures if c in capexes then Listed(dir, t, c, apexes)
            else forall f :: f in apexes ==> f.path != PathIn(dir, c, DECOMPRESSED_SUFFIX)
    decreases |capexes|
  {
    hide PathIn, Turn, Listed, PackageId;
    if capexes != [] {
      var n := |capexes| - 1;
      assert capexes == capexes[..n] + [capexes[n]];
      var m, init, r :|
        && ProcessedAll(dir, s, m, capexes[..n], false, worlds[..n], init)
        && Turn(dir, m, t, capexes[n], false, worlds[n], r) && apexes == init + Keep(r);
      BootListIsWhatIsValid(dir, s, m, capexes[..n], worlds[..n], init, c);
      if capexes[n] != c {
        OthersStayListed(dir, m, t, c, capexes[n], worlds[n], r, init);
      } else {
        TurnProcesses(dir, m, t, c, worlds[n], r);
        if c in capexes[..n] {
          ListedAgain(dir, m, t, c, worlds[n], r, init);
        } else {
          ProcessedIsListed(dir, m, t, c, worlds[n], r, init);
        }
      }
    }
  }

  /** A package that can be decompressed when its turn comes is there at the end, in a file that validates. */
  lemma {:induction false} UnpackedStays(dir: string, s: Store, t: Store, capexes: seq<Apex>, worlds: seq<World>,
                                         apexes: seq<ApexFile>, c: Apex)
    requires |worlds| == |capexes| && c.compressed && OwnsId(capexes, c) && CanRemove(capexes, worlds, c)
    requires forall i :: 0 <= i < |capexes| && capexes[i] == c ==> Unpacks(c, worlds[i])
    requires ProcessedAll(dir, s, t, capexes, false, worlds, apexes)
    ensures c in capexes ==> ValidAt(t, PathIn(dir, c, DECOMPRESSED_SUFFIX), c)
    decreases |capexes|
  {
    hide PathIn, Turn, Validates, PackageId, Unpacks;
    if capexes != [] {
      var n := |capexes| - 1;
      assert capexes == capexes[..n] + [capexes[n]];
      var m, init, r :|
        && ProcessedAll(dir, s, m, capexes[..n], false, worlds[..n], init)
        && Turn(dir, m, t, capexes[n], false, worlds[n], r) && apexes == init + Keep(r);
      UnpackedStays(dir, s, m, capexes[..n], worlds[..n], init, c);
      TurnLeavesValid(dir, m, t, capexes[n], worlds[n], r, c);
    }
  }

  lemma {:induction false} TurnLeavesValid(dir: string, s: Store, t: Store, b: Apex, w: World, r: Result<ApexFile>,
                                           c: Apex)
    requires Turn(dir, s, t, b, false, w, r) && c.compressed && (b == c || b.Id() != c.Id())
    ensures b == c && w.removes && Unpacks(c, w) ==> ValidAt(t, PathIn(dir, c, DECOMPRESSED_SUFFIX), c)
    ensures b != c && ValidAt(s, PathIn(dir, c, DECOMPRESSED_SUFFIX), c) ==>
      ValidAt(t, PathIn(dir, c, DECOMPRESSED_SUFFIX), c)
  {
    hide PathIn, Validates, Unpacks, PackageId;
    if b.compressed {
      BootLeavesValidFileOrNone(dir, s, t, b, w, r);
      var place := PathIn(dir, c, DECOMPRESSED_SUFFIX);
      assert b != c ==> Get(t.files, place) == Get(s.files, place);
    }
  }

  /** What a boot returns lies in the decompression directory. */
  lemma {:induction false} UnpackedIntoDir(dir: string, s: Store, t: Store, capexes: seq<Apex>, worlds: seq<World>,
                                           apexes: seq<ApexFile>, f: ApexFile)
    requires |worlds| == |capexes| && ProcessedAll(dir, s, t, capexes, false, worlds, apexes) && f in apexes
    ensures StartsWith(f.path, dir)
    decreases |capexes|
  {
    hide Turn, PathIn, StartsWith;
    var n := |capexes| - 1;
    var m, init, r :|
      && ProcessedAll(dir, s, m, capexes[..n], false, worlds[..n], init)
      && Turn(dir, m, t, capexes[n], false, worlds[n], r) && apexes == init + Keep(r);
    if f in init {
      UnpackedIntoDir(dir, s, m, capexes[..n], worlds[..n], init, f);
    } else {
      TurnPath(dir, m, t, capexes[n], worlds[n], r);
    }
  }

  lemma TurnPath(dir: string, s: Store, t: Store, c: Apex, w: World, r: Result<ApexFile>)
    requires Turn(dir, s, t, c, false, w, r) && r.Ok?
    ensures StartsWith(r.value.path, dir)
  {
    hide Validates, Unpacks;
    assert PathIn(dir, c, DECOMPRESSED_SUFFIX)[..|dir|] == dir;
  }

  lemma TurnProcesses(dir: string, s: Store, t: Store, c: Apex, w: World, r: Result<ApexFile>)
    requires Turn(dir, s, t, c, false, w, r) && c.compressed
    ensures Processed(dir, s, t, c, false, w, r)
  { }
}
