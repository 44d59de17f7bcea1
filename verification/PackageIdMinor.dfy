/** The minor of the id under which an APEX is mounted when it is installed without staging
    (apexd/apexd.cpp:3727-3772, 3857-3858, 3891-3892). */
module PackageIdMinor {
  import opened Basics
  import opened Naming

  const MAX_VERITY_DEVICES_PER_APEX_NAME := 3
  const SIZES: nat := 0x1_0000_0000_0000_0000

  /** Adding one to a size_t. */
  function Increment(n: size): (m: size)
    ensures m == if n == SIZE_MAX then 0 else n + 1
  {
    (n + 1) % SIZES
  }

  /** The position after the last '_', or 0 if there is none. */
  function AfterLastUnderscore(s: string): (i: nat)
    ensures i <= |s| && (i > 0 ==> s[i - 1] == '_') && forall j :: i <= j < |s| ==> s[j] != '_'
  {
    if s == "" then 0
    else if s[|s| - 1] == '_' then |s|
    else AfterLastUnderscore(s[..|s| - 1])
  }

  datatype Minor = NoMinor | Malformed | HasMinor(value: size)

  /** What a dm device name says about the minors of package `name`. */
  function MinorOf(dmName: string, name: string): Minor
    requires StartsWith(dmName, name)
  {
    var rest := dmName[|name|..];
    var i := AfterLastUnderscore(rest);
    if i == 0 then NoMinor
    else
      match ParseUint(rest[i..])
      case None => Malformed
      case Some(minor) => HasMinor(minor)
  }

  function NewId(name: string, version: int64, minor: size): string {
    PackageId(name, version) + "_" + Digits(minor)
  }

  function TargetFile(activeDir: string, name: string, version: int64, minor: size): string {
    activeDir + "/" + NewId(name, version, minor) + ".apex"
  }

  /** The devices counted for a package: those whose names start with the package's name. */
  function Count(dms: seq<string>, name: string): nat {
    if dms == [] then 0 else Count(dms[..|dms| - 1], name) + if StartsWith(dms[|dms| - 1], name) then 1 else 0
  }

  predicate WellFormed(dms: seq<string>, name: string) {
    forall i :: 0 <= i < |dms| && StartsWith(dms[i], name) ==> MinorOf(dms[i], name) != Malformed
  }

  /** The first minor that is tried. */
  function Start(dms: seq<string>, name: string): size {
    if dms == [] then 1
    else
      var last, before := dms[|dms| - 1], Start(dms[..|dms| - 1], name);
      if StartsWith(last, name) && MinorOf(last, name).HasMinor? && before < Increment(MinorOf(last, name).value)
      then Increment(MinorOf(last, name).value) else before
  }

  /** Every minor in use is below the first one tried, except the largest size_t. */
  lemma {:induction false} StartIsAbove(dms: seq<string>, name: string, i: nat)
    requires i < |dms| && StartsWith(dms[i], name) && MinorOf(dms[i], name).HasMinor?
    ensures MinorOf(dms[i], name).value < Start(dms, name) || MinorOf(dms[i], name).value == SIZE_MAX
  {
    hide MinorOf, StartsWith;
    var n := |dms| - 1;
    if i < n {
      StartIsAbove(dms[..n], name, i);
    }
  }

  /** The name of a device is read back as its minor: printing and parsing decimals are inverse, and
      neither the version nor the minor holds an underscore. */
  lemma {:induction false} NewIdMinor(name: string, version: int64, minor: size)
    ensures StartsWith(NewId(name, version, minor), name)
    ensures MinorOf(NewId(name, version, minor), name) == HasMinor(minor)
  {
    hide ParseUint, ToString, Digits;
    var id, v := NewId(name, version, minor), "@" + ToString(version) + "_";
    assert id == name + v + Digits(minor);
    var rest := id[|name|..];
    assert rest == v + Digits(minor) && rest[|v| - 1] == '_';
    assert forall j :: |v| <= j < |rest| ==> rest[j] == Digits(minor)[j - |v|];
    assert AfterLastUnderscore(rest) == |v|;
    assert rest[|v|..] == Digits(minor);
    ParseUintOfDigits(minor);
  }

  lemma {:induction false} TargetFilesDiffer(activeDir: string, name: string, version: int64, m: size, n: size)
    requires TargetFile(activeDir, name, version, m) == TargetFile(activeDir, name, version, n)
    ensures m == n
  {
    hide PackageId, Digits;
    AppendInjective(activeDir + "/" + NewId(name, version, m), activeDir + "/" + NewId(name, version, n), ".apex");
    var a := activeDir + "/" + NewId(name, version, m);
    assert a[|activeDir| + 1 + |PackageId(name, version)| + 1..] == Digits(m) == Digits(n);
    DigitsDenote(m);
    DigitsDenote(n);
  }

  predicate Taken(files: set<string>, activeDir: string, name: string, version: int64, minor: size) {
    TargetFile(activeDir, name, version, minor) in files
  }

  /** `n` is the first minor from `start` on, counting up and around, whose file does not exist. */
  ghost predicate IsFirstFree(files: set<string>, activeDir: string, name: string, version: int64, start: size,
                              n: size) {
    && !Taken(files, activeDir, name, version, n)
    && forall m: size :: Passed(start, n, m) ==> Taken(files, activeDir, name, version, m)
  }

  /** `m` comes before `n` on the way up and around from `start`. */
  predicate Passed(start: size, n: size, m: size) {
    if start <= n then start <= m < n else start <= m || m < n
  }

  /** ComputePackageIdMinor, given the names of the dm devices, or None if they cannot be listed, and the
      files of the active directory. The search would not end if every minor were taken. */
  method ComputePackageIdMinor(name: string, version: int64, dmDevices: Option<seq<string>>, files: set<string>,
                               activeDir: string)
    returns (r: Result<size>)
    requires exists n: size :: !Taken(files, activeDir, name, version, n)
    ensures r.Error? <==>
      dmDevices.None? || !WellFormed(dmDevices.value, name) ||
      Count(dmDevices.value, name) > MAX_VERITY_DEVICES_PER_APEX_NAME
    ensures r.Ok? ==> IsFirstFree(files, activeDir, name, version, Start(dmDevices.value, name), r.value)
  {
    hide TargetFile, MinorOf, StartsWith;
    if dmDevices.None? {
      return Error;
    }
    var dms := dmDevices.value;
    var devices: nat := 0;
    var nextMinor: size := 1;
    for i := 0 to |dms|
      invariant devices == Count(dms[..i], name) && nextMinor == Start(dms[..i], name)
      invariant forall j :: 0 <= j < i && StartsWith(dms[j], name) ==> MinorOf(dms[j], name) != Malformed
    {
      assert dms[..i + 1][..i] == dms[..i];
      if !StartsWith(dms[i], name) {
        continue;
      }
      devices := devices + 1;
      var minor := MinorOf(dms[i], name);
      if minor == Malformed {
        return Error;
      }
      if minor.HasMinor? && nextMinor < Increment(minor.value) {
        nextMinor := Increment(minor.value);
      }
    }
    assert dms[..|dms|] == dms;
    if devices > MAX_VERITY_DEVICES_PER_APEX_NAME {
      return Error;
    }
    ghost var free: size :| !Taken(files, activeDir, name, version, free);
    ghost var start := nextMinor;
    while Taken(files, activeDir, name, version, nextMinor)
      invariant forall m: size :: Passed(start, nextMinor, m) ==> Taken(files, activeDir, name, version, m)
      decreases if nextMinor <= free then free - nextMinor else free + SIZES - nextMinor
    {
      AroundPasses(start, nextMinor, free);
      nextMinor := Increment(nextMinor);
    }
    r := Ok(nextMinor);
  }

  lemma AroundPasses(start: size, n: size, free: size)
    requires n != free && !Passed(start, n, free)
    ensures Increment(n) != start
    ensures forall m: size :: Passed(start, Increment(n), m) <==> Passed(start, n, m) || m == n
  { }

  /** The id with this minor, and the next one, which is used when the installation is undone. */
  predicate Fresh(dms: seq<string>, name: string, version: int64, n: size) {
    NewId(name, version, n) !in dms && NewId(name, version, Increment(n)) !in dms
  }

  lemma {:induction false} DevicesAreBelow(dms: seq<string>, name: string, version: int64, n: size)
    requires NewId(name, version, n) in dms
    ensures n < Start(dms, name) || n == SIZE_MAX
  {
    hide NewId, Start;
    var i :| 0 <= i < |dms| && dms[i] == NewId(name, version, n);
    NewIdMinor(name, version, n);
    StartIsAbove(dms, name, i);
  }

  ghost predicate FreeBelow(files: set<string>, activeDir: string, name: string, version: int64, start: size,
                            limit: size) {
    exists m: size :: start <= m < limit && !Taken(files, activeDir, name, version, m)
  }

  /** Some minor that is tried before the largest size_t being free, the result is fresh exactly unless
      a device has the largest minor and the search reaches the one just below it. */
  lemma {:induction false} ResultIsFresh(dms: seq<string>, files: set<string>, activeDir: string, name: string,
                                         version: int64, n: size)
    requires IsFirstFree(files, activeDir, name, version, Start(dms, name), n)
    requires FreeBelow(files, activeDir, name, version, Start(dms, name), SIZE_MAX)
    ensures Fresh(dms, name, version, n) <==>
      !(NewId(name, version, SIZE_MAX) in dms &&
        !FreeBelow(files, activeDir, name, version, Start(dms, name), SIZE_MAX - 1))
  {
    hide NewId, Start, Taken;
    var start := Start(dms, name);
    var m: size :| start <= m < SIZE_MAX && !Taken(files, activeDir, name, version, m);
    assert !Passed(start, n, m);
    assert start <= n <= m;
    if NewId(name, version, n) in dms {
      DevicesAreBelow(dms, name, version, n);
    }
    if NewId(name, version, Increment(n)) in dms {
      DevicesAreBelow(dms, name, version, Increment(n));
    }
    if FreeBelow(files, activeDir, name, version, start, SIZE_MAX - 1) {
      var l: size :| start <= l < SIZE_MAX - 1 && !Taken(files, activeDir, name, version, l);
      assert !Passed(start, n, l);
    }
  }

  /** The target files of `n` minors from `start` on. */
  ghost function TargetFiles(activeDir: string, name: string, version: int64, start: nat, n: nat): set<string>
    requires start + n <= SIZES
  {
    if n == 0 then {}
    else TargetFiles(activeDir, name, version, start, n - 1) + {TargetFile(activeDir, name, version, start + n - 1)}
  }

  /** Different minors have different files, so a directory with few files leaves a minor free. */
  lemma {:induction false} TargetFilesAreMany(activeDir: string, name: string, version: int64, start: nat, n: nat)
    requires start + n <= SIZES
    ensures |TargetFiles(activeDir, name, version, start, n)| == n
    ensures forall f :: f in TargetFiles(activeDir, name, version, start, n) <==>
      exists m: size :: start <= m < start + n && f == TargetFile(activeDir, name, version, m)
  {
    hide TargetFile, FreeBelow, Taken;
    if n > 0 {
      TargetFilesAreMany(activeDir, name, version, start, n - 1);
      var last: size := start + n - 1;
      var f := TargetFile(activeDir, name, version, last);
      if f in TargetFiles(activeDir, name, version, start, n - 1) {
        var m: size :| start <= m < start + n - 1 && f == TargetFile(activeDir, name, version, m);
        TargetFilesDiffer(activeDir, name, version, m, last);
      }
    }
  }

  /** A minor is free below `limit` if the directory has fewer files than there are minors up to there. */
  lemma {:induction false} FewFilesLeaveOneFree(files: set<string>, activeDir: string, name: string, version: int64,
                                                start: size, limit: size)
    requires start + |files| < limit
    ensures FreeBelow(files, activeDir, name, version, start, limit)
  {
    hide TargetFile, TargetFiles;
    var n := |files| + 1;
    var targets := TargetFiles(activeDir, name, version, start, n);
    TargetFilesAreMany(activeDir, name, version, start, n);
    if targets <= files {
      NotMore(targets, files);
    } else {
      var f :| f in targets && f !in files;
      var m: size :| start <= m < start + n && f == TargetFile(activeDir, name, version, m);
      assert !Taken(files, activeDir, name, version, m);
    }
  }

  /** What a caller can check: with fewer files than minors left, the search ends and its result is fresh. */
  lemma {:induction false} FewFilesFresh(dms: seq<string>, files: set<string>, activeDir: string, name: string,
                                         version: int64, n: size)
    requires Start(dms, name) + |files| < SIZE_MAX - 1
    ensures exists m: size :: !Taken(files, activeDir, name, version, m)
    ensures IsFirstFree(files, activeDir, name, version, Start(dms, name), n) ==> Fresh(dms, name, version, n)
  {
    hide Start, IsFirstFree, Fresh, Taken;
    FewFilesLeaveOneFree(files, activeDir, name, version, Start(dms, name), SIZE_MAX - 1);
    FewFilesLeaveOneFree(files, activeDir, name, version, Start(dms, name), SIZE_MAX);
    if IsFirstFree(files, activeDir, name, version, Start(dms, name), n) {
      ResultIsFresh(dms, files, activeDir, name, version, n);
    }
  }

  /** Two devices for which the result is not fresh: the largest minor is forgotten when one is added to it. */
  lemma {:induction false} StaleExample(version: int64)
    ensures var dms := [NewId("a", version, SIZE_MAX - 2), NewId("a", version, SIZE_MAX)];
      IsFirstFree({}, "/data/apex/active", "a", version, Start(dms, "a"), SIZE_MAX - 1) &&
      !Fresh(dms, "a", version, SIZE_MAX - 1)
  {
    hide NewId, MinorOf, StartsWith, TargetFile;
    var dms := [NewId("a", version, SIZE_MAX - 2), NewId("a", version, SIZE_MAX)];
    NewIdMinor("a", version, SIZE_MAX - 2);
    NewIdMinor("a", version, SIZE_MAX);
    assert dms[..1] == [NewId("a", version, SIZE_MAX - 2)] && dms[..1][..0] == [];
    assert Start(dms[..1], "a") == SIZE_MAX - 1;
    assert Start(dms, "a") == SIZE_MAX - 1;
    assert Increment(SIZE_MAX - 1) == SIZE_MAX && dms[1] in dms;
  }
}
