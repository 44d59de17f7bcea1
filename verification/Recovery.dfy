/** Rebuilding the database of mounted APEXes from the mount table and sysfs when the daemon starts
    (apexd/apex_database.cpp:104-299). */
module Recovery {
  import opened Basics
  import opened Naming
  import opened Repository
  import opened MountedApexes

  /** What /sys/block shows for each device name. */
  datatype SysBlock = SysBlock(backingFile: map<string, string>,
                         dmName: map<string, string>, slaves: map<string, seq<string>>)

  datatype Config = Config(activeDir: string, decompressionDir: string, hashTreeDir: string)

  // Strings

  function IndexOf(s: string, c: char): (i: nat)
    ensures i <= |s| && (i < |s| ==> s[i] == c) && forall j :: 0 <= j < i ==> s[j] != c
  {
    if s == "" || s[0] == c then 0 else 1 + IndexOf(s[1..], c)
  }

  function Split(s: string, c: char): (parts: seq<string>)
    ensures parts != []
    decreases |s|
  {
    var i := IndexOf(s, c);
    if i == |s| then [s] else [s[..i]] + Split(s[i + 1..], c)
  }

  lemma SplitFirst(a: string, c: char, b: string)
    requires c !in a
    ensures Split(a + [c] + b, c) == [a] + Split(b, c)
  {
    var s := a + [c] + b;
    assert s[|a|] == c;
    assert forall j :: 0 <= j < |a| ==> s[j] == a[j];
    assert IndexOf(s, c) == |a|;
    assert s[..|a|] == a && s[|a| + 1..] == b;
  }

  lemma SplitNone(a: string, c: char)
    requires c !in a
    ensures Split(a, c) == [a]
  {
    assert IndexOf(a, c) == |a|;
  }

  function ParentPath(path: string): string {
    var k := |path| - |Basename(path)|;
    if k <= 1 then path[..k] else path[..k - 1]
  }

  lemma ParentOf(dir: string, name: string)
    requires '/' !in name && dir != ""
    ensures ParentPath(dir + "/" + name) == dir
  {
    BasenameOf(dir, name);
  }

  // Parsing the mount table

  function ParseMountInfo(line: string): (string, string) {
    var tokens := Split(line, ' ');
    if |tokens| < 2 then ("", "") else (tokens[0], tokens[1])
  }

  function ParseMountPoint(mountPoint: string): (string, int) {
    var packageId := Basename(mountPoint);
    var split := Split(packageId, '@');
    if |split| == 2 then (split[0], if ParseInt(split[1]).Some? then ParseInt(split[1]).value else -1)
    else (packageId, -1)
  }

  predicate IsActiveMountPoint(mountPoint: string) {
    '@' !in mountPoint
  }

  /** Printing and parsing a mount point are inverse, for names without '@' and '/' and 32-bit versions. */
  lemma {:induction false} MountPointRoundTrip(name: string, version: int)
    requires '@' !in name && '/' !in name
    ensures var mp := PackageMountPoint(name, version);
      && ParentPath(mp) == APEX_ROOT && !IsActiveMountPoint(mp) && !EndsWith(mp, ".tmp")
      && ParseMountPoint(mp) == (name, if FitsInt32(version) then version else -1)
  {
    hide ParseInt, Split, Basename;
    var mp, id := PackageMountPoint(name, version), PackageId(name, version);
    BasenameOf(APEX_ROOT, id);
    ParentOf(APEX_ROOT, id);
    SplitFirst(name, '@', ToString(version));
    SplitNone(ToString(version), '@');
    ParseIntOfToString(version);
    assert mp[|APEX_ROOT| + 1 + |name|] == '@';
    assert mp[|mp| - 1] == ToString(version)[|ToString(version)| - 1];
    TmpEndsInP(mp);
  }

  lemma TmpEndsInP(s: string)
    ensures EndsWith(s, ".tmp") ==> |s| >= 4 && s[|s| - 1] == 'p'
  {
    if EndsWith(s, ".tmp") {
      assert s[|s| - 4..][3] == 'p';
    }
  }

  /** The mount point of a temp mount gives the name back, but not the version. */
  lemma {:induction false} TempMountPointParses(name: string, version: int)
    requires '@' !in name && '/' !in name
    ensures var mp := PackageMountPoint(name, version) + ".tmp";
      && ParentPath(mp) == APEX_ROOT && !IsActiveMountPoint(mp) && EndsWith(mp, ".tmp")
      && ParseMountPoint(mp) == (name, -1)
  {
    hide Split, Basename, ParseInt;
    var mp, id := PackageMountPoint(name, version) + ".tmp", PackageId(name, version) + ".tmp";
    var v := ToString(version) + ".tmp";
    assert mp == APEX_ROOT + "/" + id && id == name + "@" + v;
    BasenameOf(APEX_ROOT, id);
    ParentOf(APEX_ROOT, id);
    SplitFirst(name, '@', v);
    SplitNone(v, '@');
    assert mp[|APEX_ROOT| + 1 + |name|] == '@';
    assert v[|v| - 1] == 'p';
    EndsInLetter(v);
  }

  lemma EndsInLetter(v: string)
    requires |v| > 1 && v[|v| - 1] == 'p'
    ensures ParseInt(v).None?
  {
    var digits := if v[0] == '-' then v[1..] else v;
    assert digits[|digits| - 1] == 'p';
  }

  // Devices

  function DevPath(device: string): string {
    "/dev/block/" + device
  }

  predicate IsLoop(device: string) {
    StartsWith(device, "loop")
  }

  predicate IsDataFile(cfg: Config, file: string) {
    StartsWith(file, cfg.activeDir) || StartsWith(file, cfg.decompressionDir)
  }

  datatype LoopInfo = LoopInfo(loopName: string, fullPath: string, hashtreeLoopName: string)

  predicate IsDataLoop(device: string, sys: SysBlock, cfg: Config) {
    IsLoop(device) && device in sys.backingFile && IsDataFile(cfg, sys.backingFile[device])
  }

  predicate IsTreeLoop(device: string, sys: SysBlock, cfg: Config) {
    IsLoop(device) && device in sys.backingFile && StartsWith(sys.backingFile[device], cfg.hashTreeDir)
  }

  /** What is learnt from a data loop device and, if there is one, a hash tree loop device. */
  function InfoOf(data: string, tree: Option<string>, sys: SysBlock): LoopInfo
    requires data in sys.backingFile
  {
    LoopInfo(DevPath(data), sys.backingFile[data], if tree.Some? then DevPath(tree.value) else "")
  }

  /** The slaves of a dm device, in the order listed: a data loop device, alone or with a hash tree loop
      device before or after it. */
  function LoopInfoOf(slaves: seq<string>, sys: SysBlock, cfg: Config): Result<LoopInfo> {
    if |slaves| == 1 && IsDataLoop(slaves[0], sys, cfg) then Ok(InfoOf(slaves[0], None, sys))
    else if |slaves| == 2 && IsDataLoop(slaves[0], sys, cfg) && IsTreeLoop(slaves[1], sys, cfg) then
      Ok(InfoOf(slaves[0], Some(slaves[1]), sys))
    else if |slaves| == 2 && !IsDataLoop(slaves[0], sys, cfg) && IsTreeLoop(slaves[0], sys, cfg) &&
      IsDataLoop(slaves[1], sys, cfg) then
      Ok(InfoOf(slaves[1], Some(slaves[0]), sys))
    else Error
  }

  method PopulateLoopInfo(device: string, sys: SysBlock, cfg: Config) returns (r: Result<LoopInfo>)
    ensures r == LoopInfoOf(if device in sys.slaves then sys.slaves[device] else [], sys, cfg)
  {
    hide StartsWith, IsDataFile;
    var slaves := if device in sys.slaves then sys.slaves[device] else [];
    if |slaves| != 1 && |slaves| != 2 {
      return Error;
    }
    var backingFiles := [];
    for i := 0 to |slaves|
      invariant |backingFiles| == i
      invariant forall j ::
        0 <= j < i ==>
          IsLoop(slaves[j]) && slaves[j] in sys.backingFile && backingFiles[j] == sys.backingFile[slaves[j]]
    {
      if !IsLoop(slaves[i]) || slaves[i] !in sys.backingFile {
        return Error;
      }
      backingFiles := backingFiles + [sys.backingFile[slaves[i]]];
    }
    if |slaves| == 2 && !IsDataFile(cfg, backingFiles[0]) {
      slaves, backingFiles := [slaves[1], slaves[0]], [backingFiles[1], backingFiles[0]];
    }
    if !IsDataFile(cfg, backingFiles[0]) {
      return Error;
    }
    var hashtreeLoopName := "";
    if |slaves| == 2 {
      if !StartsWith(backingFiles[1], cfg.hashTreeDir) {
        return Error;
      }
      hashtreeLoopName := DevPath(slaves[1]);
    }
    r := Ok(LoopInfo(DevPath(slaves[0]), backingFiles[0], hashtreeLoopName));
  }

  /** The order in which sysfs lists two slaves matters only if both are data loop devices and one of
      them could also be the hash tree's. */
  lemma {:induction false} SlaveOrderIsIrrelevant(a: string, b: string, sys: SysBlock, cfg: Config)
    ensures LoopInfoOf([a, b], sys, cfg) == LoopInfoOf([b, a], sys, cfg) <==>
      a == b || !(
        IsDataLoop(a, sys, cfg) && IsDataLoop(b, sys, cfg) && (IsTreeLoop(a, sys, cfg) || IsTreeLoop(b, sys, cfg)))
  {
    hide IsDataLoop, IsTreeLoop;
    if a != b {
      PrefixDiffers("/dev/block/", a, b);
    }
  }

  lemma PrefixDiffers(p: string, a: string, b: string)
    requires a != b
    ensures p + a != p + b
  {
    assert (p + a)[|p|..] == a && (p + b)[|p|..] == b;
  }

  // Resolving one mount

  predicate IsSpace(c: char) {
    c == ' ' || '\t' <= c <= '\r'
  }

  function TrimRight(s: string): string {
    if s != "" && IsSpace(s[|s| - 1]) then TrimRight(s[..|s| - 1]) else s
  }

  const DELETED := "(deleted)"

  /** NormalizeIfDeleted. */
  function Normalized(d: MountedApexData): MountedApexData {
    if EndsWith(d.fullPath, DELETED) then
      d.(deleted := true, fullPath := TrimRight(d.fullPath[..|d.fullPath| - |DELETED|]))
    else d.(deleted := false)
  }

  /** ResolveMountInfo. */
  function ResolveMountInfo(block: string, mountPoint: string, sys: SysBlock, cfg: Config): Result<MountedApexData> {
    var device, temp := Basename(block), EndsWith(mountPoint, ".tmp");
    if IsLoop(device) then
      if device !in sys.backingFile then Error
      else Ok(Normalized(MountedApexData(0, DevPath(device), sys.backingFile[device], mountPoint, "", "", false, temp)))
    else if StartsWith(device, "dm-") then
      if device !in sys.dmName then Error
      else
        match LoopInfoOf(if device in sys.slaves then sys.slaves[device] else [], sys, cfg)
        case Error => Error
        case Ok(info) =>
          Ok(Normalized(MountedApexData(0, info.loopName, info.fullPath, mountPoint,
              sys.dmName[device], info.hashtreeLoopName, false, temp)))
    else Error
  }

  /** What one line of the mount table adds to the database, and for which package. */
  function Recover(line: string, sys: SysBlock, cfg: Config): Option<(string, MountedApexData)> {
    var (block, mountPoint) := ParseMountInfo(line);
    if ParentPath(mountPoint) != APEX_ROOT || IsActiveMountPoint(mountPoint) then None
    else
      match ResolveMountInfo(block, mountPoint, sys, cfg)
      case Error => None
      case Ok(data) =>
        var (package, version) := ParseMountPoint(mountPoint);
        Some((package, data.(version := version)))
  }

  // What the kernel shows of a mount

  /** A path that does not look as if the kernel had marked it. */
  predicate PlainPath(path: string) {
    path != "" && !IsSpace(path[|path| - 1]) && !EndsWith(path, DELETED)
  }

  /** The backing file of a device, as sysfs prints it. */
  function Printed(path: string, deleted: bool): string {
    if deleted then path + " " + DELETED else path
  }

  function MountPointOf(package: string, version: int, temp: bool): string {
    PackageMountPoint(package, version) + if temp then ".tmp" else ""
  }

  /** How one mount appears: the devices, and the version in the name of its mount point. */
  datatype View = View(block: string, loop: string, tree: Option<string>, version: int, rest: string, deletedNow: bool)

  /** An entry of the running database for `package` is shown by a line of the mount table and by sysfs:
      a mount of a loop device, or of a dm device over a data loop device and perhaps a hash tree loop
      device, listed in either order. */
  predicate Shows(line: string, sys: SysBlock, cfg: Config, package: string, d: MountedApexData, v: View) {
    && '@' !in package && '/' !in package && ' ' !in package
    && d.mountPoint == MountPointOf(package, v.version, d.isTempMount)
    && (!d.isTempMount ==> FitsInt32(v.version) && d.version == v.version)
    && PlainPath(d.fullPath)
    && '/' !in v.block && ' ' !in v.block && '/' !in v.loop
    && line == DevPath(v.block) + " " + d.mountPoint + " " + v.rest
    && d.loopName == DevPath(v.loop) && IsLoop(v.loop)
    && v.loop in sys.backingFile && sys.backingFile[v.loop] == Printed(d.fullPath, v.deletedNow)
    && if d.deviceName == "" then v.block == v.loop && v.tree.None? && d.hashtreeLoopName == ""
       else
         && !IsLoop(v.block) && StartsWith(v.block, "dm-")
         && v.block in sys.dmName && sys.dmName[v.block] == d.deviceName
         && v.block in sys.slaves && ShowsSlaves(sys.slaves[v.block], sys, cfg, d, v)
  }

  predicate ShowsSlaves(slaves: seq<string>, sys: SysBlock, cfg: Config, d: MountedApexData, v: View) {
    && IsDataLoop(v.loop, sys, cfg)
    && if v.tree.None? then slaves == [v.loop] && d.hashtreeLoopName == ""
       else
         && (slaves == [v.loop, v.tree.value] || slaves == [v.tree.value, v.loop])
         && IsTreeLoop(v.tree.value, sys, cfg) && !IsDataLoop(v.tree.value, sys, cfg)
         && d.hashtreeLoopName == DevPath(v.tree.value)
  }

  /** The entry that is rebuilt: a temp mount loses its version, and the deleted flag is the present one. */
  function Rebuilt(d: MountedApexData, v: View): MountedApexData {
    d.(version := if d.isTempMount then -1 else d.version, deleted := v.deletedNow)
  }

  lemma {:induction false} NormalizedPrinted(d: MountedApexData, deletedNow: bool)
    requires PlainPath(d.fullPath)
    ensures Normalized(d.(fullPath := Printed(d.fullPath, deletedNow))) == d.(deleted := deletedNow)
  {
    if deletedNow {
      var s := Printed(d.fullPath, true);
      assert s[|s| - |DELETED|..] == DELETED && s[..|s| - |DELETED|] == d.fullPath + " ";
      assert (d.fullPath + " ")[..|d.fullPath|] == d.fullPath;
      assert TrimRight(d.fullPath) == d.fullPath;
    }
  }

  lemma {:induction false} LineParses(block: string, mountPoint: string, rest: string)
    requires ' ' !in block && ' ' !in mountPoint
    ensures ParseMountInfo(block + " " + mountPoint + " " + rest) == (block, mountPoint)
  {
    hide Split;
    var tail := mountPoint + " " + rest;
    assert block + " " + mountPoint + " " + rest == block + [' '] + tail;
    SplitFirst(block, ' ', tail);
    SplitFirst(mountPoint, ' ', rest);
    assert Split(tail, ' ') == [mountPoint] + Split(rest, ' ');
  }

  lemma {:induction false} MountPointParses(package: string, version: int, temp: bool)
    requires '@' !in package && '/' !in package && ' ' !in package
    ensures var mp := MountPointOf(package, version, temp);
      && ParentPath(mp) == APEX_ROOT && !IsActiveMountPoint(mp) && EndsWith(mp, ".tmp") == temp && ' ' !in mp
      && ParseMountPoint(mp) == (package, if !temp && FitsInt32(version) then version else -1)
  {
    hide ParentPath, IsActiveMountPoint, ParseMountPoint, EndsWith;
    if temp {
      TempMountPointParses(package, version);
    } else {
      MountPointRoundTrip(package, version);
      assert PackageMountPoint(package, version) + "" == PackageMountPoint(package, version);
    }
  }

  lemma {:induction false} DevicesResolve(line: string, sys: SysBlock, cfg: Config, package: string,
                                          d: MountedApexData, v: View)
    requires Shows(line, sys, cfg, package, d, v) && EndsWith(d.mountPoint, ".tmp") == d.isTempMount
    ensures ResolveMountInfo(DevPath(v.block), d.mountPoint, sys, cfg) == Ok(d.(version := 0, deleted := v.deletedNow))
  {
    hide EndsWith, StartsWith, Normalized, IsDataLoop, IsTreeLoop,
        Printed, PlainPath, MountPointOf, FitsInt32, Basename;
    BasenameOf("/dev/block", v.block);
    assert DevPath(v.block) == "/dev/block" + "/" + v.block;
    NormalizedPrinted(d.(version := 0, deleted := false), v.deletedNow);
  }

  /** A line that shows an entry rebuilds it. */
  lemma {:induction false} ShownIsRecovered(line: string, sys: SysBlock, cfg: Config, package: string,
                                            d: MountedApexData, v: View)
    requires Shows(line, sys, cfg, package, d, v)
    ensures Recover(line, sys, cfg) == Some((package, Rebuilt(d, v)))
  {
    hide Shows, ParseMountInfo, ParseMountPoint, ResolveMountInfo, ParentPath,
        IsActiveMountPoint, EndsWith, MountPointOf, DevPath;
    ShownParts(line, sys, cfg, package, d, v);
    MountPointParses(package, v.version, d.isTempMount);
    DevicesResolve(line, sys, cfg, package, d, v);
    LineParses(DevPath(v.block), d.mountPoint, v.rest);
  }

  lemma ShownParts(line: string, sys: SysBlock, cfg: Config, package: string, d: MountedApexData, v: View)
    requires Shows(line, sys, cfg, package, d, v)
    ensures '@' !in package && '/' !in package && ' ' !in package
    ensures d.mountPoint == MountPointOf(package, v.version, d.isTempMount)
    ensures !d.isTempMount ==> FitsInt32(v.version) && d.version == v.version
    ensures ' ' !in DevPath(v.block) && line == DevPath(v.block) + " " + d.mountPoint + " " + v.rest
  { }

  // The whole table

  function AddRecovered(m: Mounts, r: Option<(string, MountedApexData)>): Mounts {
    if r.None? then m else m[r.value.0 := Insert(Entries(m, r.value.0), r.value.1)]
  }

  function AddAll(m: Mounts, lines: seq<string>, sys: SysBlock, cfg: Config): Mounts {
    if lines == [] then m
    else AddRecovered(AddAll(m, lines[..|lines| - 1], sys, cfg), Recover(lines[|lines| - 1], sys, cfg))
  }

  ghost predicate AddsOne(m: Mounts, r: Option<(string, MountedApexData)>) {
    r.Some? ==> !HasKey(Entries(m, r.value.0), r.value.1) && UniqueDevices(AddRecovered(m, r))
  }

  /** No line makes the database abort. */
  ghost predicate AddsCleanly(m: Mounts, lines: seq<string>, sys: SysBlock, cfg: Config) {
    forall i :: 0 <= i < |lines| ==> AddsOne(AddAll(m, lines[..i], sys, cfg), Recover(lines[i], sys, cfg))
  }

  method AddMount(db: MountedApexDatabase, r: Option<(string, MountedApexData)>) returns (alive: bool)
    requires db.Valid()
    modifies db
    ensures alive <==> AddsOne(old(db.mounted), r)
    ensures alive ==> db.Valid() && db.mounted == AddRecovered(old(db.mounted), r)
  {
    hide UniqueDevices, HasKey, Insert, Less;
    if r.None? {
      return true;
    }
    alive := db.AddMountedApex(r.value.0, r.value.1);
  }

  method PopulateFromMounts(db: MountedApexDatabase, lines: seq<string>, sys: SysBlock, cfg: Config)
    returns (alive: bool)
    requires db.Valid()
    modifies db
    ensures alive <==> AddsCleanly(old(db.mounted), lines, sys, cfg)
    ensures alive ==> db.Valid() && db.mounted == AddAll(old(db.mounted), lines, sys, cfg)
  {
    hide Recover, AddRecovered, AddsOne, Ascending;
    for i := 0 to |lines|
      invariant db.Valid() && db.mounted == AddAll(old(db.mounted), lines[..i], sys, cfg)
      invariant forall j ::
        0 <= j < i ==> AddsOne(AddAll(old(db.mounted), lines[..j], sys, cfg), Recover(lines[j], sys, cfg))
    {
      assert lines[..i + 1][..i] == lines[..i];
      alive := AddMount(db, Recover(lines[i], sys, cfg));
      if !alive {
        return;
      }
    }
    alive := true;
    assert lines[..|lines|] == lines;
  }

  /** Where a line comes from: an entry of the running database, or something that is not an APEX mount. */
  datatype Origin = Foreign | FromEntry(package: string, index: nat, view: View)

  ghost predicate ComesFrom(line: string, o: Origin, db: Mounts, sys: SysBlock, cfg: Config) {
    match o
    case Foreign => Recover(line, sys, cfg).None?
    case FromEntry(p, i, v) => ValidIndex(db, p, i) && Shows(line, sys, cfg, p, db[p][i], v)
  }

  predicate OriginIs(o: Origin, p: string, i: int) {
    o.FromEntry? && o.package == p && o.index == i
  }

  /** The mount table shows every entry of the running database, each on one line, in any order. */
  ghost predicate Mirrors(lines: seq<string>, origins: seq<Origin>, db: Mounts, sys: SysBlock, cfg: Config) {
    && |origins| == |lines|
    && (forall k :: 0 <= k < |lines| ==> ComesFrom(lines[k], origins[k], db, sys, cfg))
    && (forall k, l :: 0 <= k < l < |lines| && origins[k].FromEntry? ==>
          !OriginIs(origins[l], origins[k].package, origins[k].index))
    && (forall p, i :: ValidIndex(db, p, i) ==> exists k :: 0 <= k < |lines| && OriginIs(origins[k], p, i))
  }

  /** Line `k` rebuilds `e` for package `p`. */
  ghost predicate Rebuilds(origins: seq<Origin>, db: Mounts, k: int, p: string, e: MountedApexData) {
    && 0 <= k < |origins| && origins[k].FromEntry? && origins[k].package == p
    && ValidIndex(db, p, origins[k].index) && e == Rebuilt(db[p][origins[k].index], origins[k].view)
  }

  /** `m` is what the first `n` lines rebuild. */
  ghost predicate RebuiltSoFar(m: Mounts, origins: seq<Origin>, db: Mounts, n: nat) {
    && (forall p :: p in m ==> Ascending(m[p]))
    && (forall p, e :: e in Entries(m, p) <==> exists k :: 0 <= k < n && Rebuilds(origins, db, k, p, e))
  }

  lemma DifferentLinesApart(origins: seq<Origin>, db: Mounts, lines: seq<string>, sys: SysBlock, cfg: Config,
                            k: int, p: string, e: MountedApexData, l: int, q: string, f: MountedApexData)
    requires Mirrors(lines, origins, db, sys, cfg) && UniqueDevices(db) && k != l
    requires Rebuilds(origins, db, k, p, e) && Rebuilds(origins, db, l, q, f)
    ensures Apart(e, f) && SoundAlone(e) && e.loopName != "" && f.loopName != e.loopName
  {
    hide Recover, Shows;
    assert ComesFrom(lines[k], origins[k], db, sys, cfg) && ComesFrom(lines[l], origins[l], db, sys, cfg);
    assert Apart(db[p][origins[k].index], db[q][origins[l].index]);
    LoopIsNamed(lines[k], sys, cfg, p, db[p][origins[k].index], origins[k].view);
    LoopIsNamed(lines[l], sys, cfg, q, db[q][origins[l].index], origins[l].view);
    assert e.loopName in LoopDevices(e) && f.loopName in LoopDevices(f);
  }

  lemma LoopIsNamed(line: string, sys: SysBlock, cfg: Config, p: string, d: MountedApexData, v: View)
    requires Shows(line, sys, cfg, p, d, v)
    ensures d.loopName != ""
  { }

  lemma {:induction false} RebuiltIsUnique(m: Mounts, origins: seq<Origin>, db: Mounts, lines: seq<string>,
                                           sys: SysBlock, cfg: Config, n: nat)
    requires Mirrors(lines, origins, db, sys, cfg) && UniqueDevices(db) && n <= |lines|
    requires RebuiltSoFar(m, origins, db, n)
    ensures UniqueDevices(m)
  {
    hide Mirrors, Less, Apart, SoundAlone, Rebuilds;
    forall p, i | ValidIndex(m, p, i) ensures SoundAlone(m[p][i]) {
      assert m[p][i] in Entries(m, p);
      var k :| 0 <= k < n && Rebuilds(origins, db, k, p, m[p][i]);
      OneLineSound(origins, db, k, p, m[p][i]);
    }
    forall p, i, q, j | ValidIndex(m, p, i) && ValidIndex(m, q, j) && (p != q || i != j)
      ensures Apart(m[p][i], m[q][j]) {
      assert m[p][i] in Entries(m, p) && m[q][j] in Entries(m, q);
      var k :| 0 <= k < n && Rebuilds(origins, db, k, p, m[p][i]);
      var l :| 0 <= l < n && Rebuilds(origins, db, l, q, m[q][j]);
      if k == l {
        SameLine(origins, db, k, p, m[p][i], q, m[q][j]);
        LessIsTotalOrder(m[p][i], m[q][j], m[p][i]);
      } else {
        DifferentLinesApart(origins, db, lines, sys, cfg, k, p, m[p][i], l, q, m[q][j]);
      }
    }
  }

  lemma OneLineSound(origins: seq<Origin>, db: Mounts, k: int, p: string, e: MountedApexData)
    requires Rebuilds(origins, db, k, p, e) && UniqueDevices(db)
    ensures SoundAlone(e)
  {
    assert SoundAlone(db[p][origins[k].index]);
  }

  lemma SameLine(origins: seq<Origin>, db: Mounts, k: int, p: string, e: MountedApexData, q: string, f: MountedApexData)
    requires Rebuilds(origins, db, k, p, e) && Rebuilds(origins, db, k, q, f)
    ensures p == q && e == f
  { }

  /** One more line keeps the correspondence and does not abort. */
  lemma {:induction false} OneMoreLine(m: Mounts, origins: seq<Origin>, db: Mounts, lines: seq<string>, sys: SysBlock,
                                       cfg: Config, n: nat)
    requires Mirrors(lines, origins, db, sys, cfg) && UniqueDevices(db) && n < |lines|
    requires RebuiltSoFar(m, origins, db, n)
    ensures AddsOne(m, Recover(lines[n], sys, cfg))
    ensures RebuiltSoFar(AddRecovered(m, Recover(lines[n], sys, cfg)), origins, db, n + 1)
  {
    hide Recover, Shows, UniqueDevices, Less, Insert, HasKey;
    var r := Recover(lines[n], sys, cfg);
    assert ComesFrom(lines[n], origins[n], db, sys, cfg);
    var t := AddRecovered(m, r);
    if origins[n].Foreign? {
      ForeignAddsNothing(m, origins, db, n);
    } else {
      var p, v := origins[n].package, origins[n].view;
      var e := Rebuilt(db[p][origins[n].index], v);
      ShownIsRecovered(lines[n], sys, cfg, p, db[p][origins[n].index], v);
      assert Rebuilds(origins, db, n, p, e);
      NewKey(m, origins, db, lines, sys, cfg, n, p, e);
      InsertKeepsOrder(Entries(m, p), e);
      EntryAdded(m, t, origins, db, n, p, e);
      RebuiltIsUnique(t, origins, db, lines, sys, cfg, n + 1);
    }
  }

  lemma ForeignAddsNothing(m: Mounts, origins: seq<Origin>, db: Mounts, n: nat)
    requires n < |origins| && origins[n].Foreign? && RebuiltSoFar(m, origins, db, n)
    ensures RebuiltSoFar(m, origins, db, n + 1)
  {
    forall p, e ensures e in Entries(m, p) <==> exists k :: 0 <= k < n + 1 && Rebuilds(origins, db, k, p, e) {
      assert !Rebuilds(origins, db, n, p, e);
    }
  }

  lemma NewKey(m: Mounts, origins: seq<Origin>, db: Mounts, lines: seq<string>, sys: SysBlock, cfg: Config, n: nat,
               p: string, e: MountedApexData)
    requires Mirrors(lines, origins, db, sys, cfg) && UniqueDevices(db) && n < |lines|
    requires RebuiltSoFar(m, origins, db, n) && Rebuilds(origins, db, n, p, e)
    ensures !HasKey(Entries(m, p), e)
  {
    hide Mirrors, Rebuilds, UniqueDevices, Apart, SoundAlone;
    forall i | 0 <= i < |Entries(m, p)| ensures !SameKey(Entries(m, p)[i], e) {
      var f := Entries(m, p)[i];
      assert f in Entries(m, p);
      var k :| 0 <= k < n && Rebuilds(origins, db, k, p, f);
      DifferentLinesApart(origins, db, lines, sys, cfg, k, p, f, n, p, e);
    }
  }

  lemma EntryAdded(m: Mounts, t: Mounts, origins: seq<Origin>, db: Mounts, n: nat, p: string, e: MountedApexData)
    requires n < |origins| && RebuiltSoFar(m, origins, db, n) && Rebuilds(origins, db, n, p, e)
    requires p in t && t == m[p := t[p]] && Ascending(t[p]) && multiset(t[p]) == multiset(Entries(m, p)) + multiset{e}
    ensures RebuiltSoFar(t, origins, db, n + 1)
  {
    hide Ascending;
    forall q, f ensures f in Entries(t, q) <==> f in Entries(m, q) || (q == p && f == e) {
      if q == p {
        assert f in Entries(t, q) <==> f in multiset(t[p]);
        assert f in Entries(m, q) <==> f in multiset(Entries(m, p));
      }
    }
    forall q, f ensures f in Entries(t, q) <==> exists k :: 0 <= k < n + 1 && Rebuilds(origins, db, k, q, f) {
      if Rebuilds(origins, db, n, q, f) {
        SameLine(origins, db, n, p, e, q, f);
      }
    }
  }

  lemma {:induction false} PrefixRebuilds(origins: seq<Origin>, db: Mounts, lines: seq<string>, sys: SysBlock,
                                          cfg: Config, n: nat)
    requires Mirrors(lines, origins, db, sys, cfg) && UniqueDevices(db) && n <= |lines|
    ensures RebuiltSoFar(AddAll(map[], lines[..n], sys, cfg), origins, db, n)
    ensures forall i :: 0 <= i < n ==> AddsOne(AddAll(map[], lines[..i], sys, cfg), Recover(lines[i], sys, cfg))
  {
    hide Mirrors, UniqueDevices, Recover, AddsOne, AddRecovered;
    if n > 0 {
      PrefixRebuilds(origins, db, lines, sys, cfg, n - 1);
      OneMoreLine(AddAll(map[], lines[..n - 1], sys, cfg), origins, db, lines, sys, cfg, n - 1);
      assert lines[..n][..n - 1] == lines[..n - 1];
    }
  }

  // Comparing the two databases

  /** The mounts of a package that are not temp mounts, without the deleted flag. */
  function Comparable(s: seq<MountedApexData>): seq<MountedApexData> {
    if s == [] then []
    else Comparable(s[..|s| - 1]) + if s[|s| - 1].isTempMount then [] else [s[|s| - 1].(deleted := false)]
  }

  lemma {:induction false} ComparableHas(s: seq<MountedApexData>, x: MountedApexData)
    ensures x in Comparable(s) <==> exists d :: d in s && !d.isTempMount && x == d.(deleted := false)
  {
    if s != [] {
      ComparableHas(s[..|s| - 1], x);
      assert s == s[..|s| - 1] + [s[|s| - 1]];
    }
  }

  lemma {:induction false} ComparableAscends(s: seq<MountedApexData>)
    requires Ascending(s)
    ensures Ascending(Comparable(s))
  {
    hide Compare;
    if s != [] {
      var init, last := s[..|s| - 1], s[|s| - 1];
      ComparableAscends(init);
      forall i | 0 <= i < |Comparable(init)| ensures Less(Comparable(init)[i], last.(deleted := false)) {
        ComparableHas(init, Comparable(init)[i]);
        var d :| d in init && !d.isTempMount && Comparable(init)[i] == d.(deleted := false);
        assert Less(d, last);
      }
    }
  }

  lemma SameElements(s: seq<MountedApexData>, t: seq<MountedApexData>)
    requires forall x :: x in s <==> x in t
    ensures s == [] <==> t == []
  {
    if s != [] {
      assert s[0] in t;
    }
    if t != [] {
      assert t[0] in s;
    }
  }

  /** An ordered set is determined by its elements. */
  lemma {:induction false} AscendingDetermined(s: seq<MountedApexData>, t: seq<MountedApexData>)
    requires Ascending(s) && Ascending(t) && forall x :: x in s <==> x in t
    ensures s == t
  {
    hide Less;
    SameElements(s, t);
    if s != [] {
      var a, b := s[|s| - 1], t[|t| - 1];
      assert a in t && b in s;
      LastIsGreatest(s, b);
      LastIsGreatest(t, a);
      LessIsTotalOrder(a, b, a);
      var s', t' := s[..|s| - 1], t[..|t| - 1];
      LastOnce(s);
      LastOnce(t);
      assert a == b;
      forall x ensures x in s' <==> x in t' {
        assert x in s <==> x in t;
      }
      AscendingDetermined(s', t');
    }
  }

  lemma LastOnce(s: seq<MountedApexData>)
    requires Ascending(s) && s != []
    ensures forall x :: x in s[..|s| - 1] <==> x in s && x != s[|s| - 1]
  {
    hide Less;
    LessIsTotalOrder(s[|s| - 1], s[|s| - 1], s[|s| - 1]);
  }

  /** The rebuilt database equals the running one on the mounts that are not temp mounts, up to the
      deleted flag, whatever the order of the mount table and of the slaves; and rebuilding never aborts. */
  lemma {:induction false} RebuiltEqualsRunning(lines: seq<string>, origins: seq<Origin>, db: Mounts, sys: SysBlock,
                                                cfg: Config, p: string)
    requires Mirrors(lines, origins, db, sys, cfg) && UniqueDevices(db) && forall q :: q in db ==> Ascending(db[q])
    ensures AddsCleanly(map[], lines, sys, cfg)
    ensures Comparable(Entries(AddAll(map[], lines, sys, cfg), p)) == Comparable(Entries(db, p))
  {
    hide UniqueDevices, Recover, AddsOne, Less, Shows, AddAll;
    PrefixRebuilds(origins, db, lines, sys, cfg, |lines|);
    assert lines[..|lines|] == lines;
    var m := AddAll(map[], lines, sys, cfg);
    forall x ensures x in Comparable(Entries(m, p)) <==> x in Comparable(Entries(db, p)) {
      SameComparable(m, origins, db, lines, sys, cfg, p, x);
    }
    ComparableAscends(Entries(m, p));
    ComparableAscends(Entries(db, p));
    AscendingDetermined(Comparable(Entries(m, p)), Comparable(Entries(db, p)));
  }

  lemma {:induction false} SameComparable(m: Mounts, origins: seq<Origin>, db: Mounts, lines: seq<string>,
                                          sys: SysBlock, cfg: Config, p: string, x: MountedApexData)
    requires Mirrors(lines, origins, db, sys, cfg) && RebuiltSoFar(m, origins, db, |lines|)
    ensures x in Comparable(Entries(m, p)) <==> x in Comparable(Entries(db, p))
  {
    hide Comparable, Recover, Shows, Ascending;
    ComparableHas(Entries(m, p), x);
    ComparableHas(Entries(db, p), x);
    if e :| e in Entries(m, p) && !e.isTempMount && x == e.(deleted := false) {
      var k :| 0 <= k < |lines| && Rebuilds(origins, db, k, p, e);
      var d := db[p][origins[k].index];
      assert d in Entries(db, p) && x == d.(deleted := false);
    }
    if d :| d in Entries(db, p) && !d.isTempMount && x == d.(deleted := false) {
      var i :| 0 <= i < |Entries(db, p)| && Entries(db, p)[i] == d;
      assert ValidIndex(db, p, i);
      var k :| 0 <= k < |lines| && OriginIs(origins[k], p, i);
      var e := Rebuilt(d, origins[k].view);
      assert Rebuilds(origins, db, k, p, e);
      assert e in Entries(m, p) && x == e.(deleted := false);
    }
  }
}
