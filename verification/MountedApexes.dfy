/** The database of mounted APEXes (apexd/apex_database.h). */
module MountedApexes {
  import opened Basics

  datatype MountedApexData = MountedApexData(
    version: int,
    loopName: string,
    fullPath: string,
    mountPoint: string,
    deviceName: string,
    hashtreeLoopName: string,
    deleted: bool,
    isTempMount: bool)

  /** std::string::compare, as its sign. */
  function Compare(s: string, t: string): (r: int)
    ensures r == 0 <==> s == t
    decreases |s|
  {
    if s == "" then (if t == "" then 0 else -1)
    else if t == "" then 1
    else if s[0] < t[0] then -1
    else if t[0] < s[0] then 1
    else
      var r := Compare(s[1..], t[1..]);
      assert s == [s[0]] + s[1..] && t == [t[0]] + t[1..];
      r
  }

  lemma {:induction false} CompareAntisymmetric(s: string, t: string)
    ensures Compare(s, t) < 0 <==> Compare(t, s) > 0
    decreases |s|
  {
    if s != "" && t != "" && s[0] == t[0] {
      CompareAntisymmetric(s[1..], t[1..]);
    }
  }

  lemma {:induction false} CompareTransitive(s: string, t: string, u: string)
    requires Compare(s, t) < 0 && Compare(t, u) < 0
    ensures Compare(s, u) < 0
    decreases |s|
  {
    if s != "" && s[0] == t[0] && t[0] == u[0] {
      CompareTransitive(s[1..], t[1..], u[1..]);
    }
  }

  /** operator<. */
  predicate Less(a: MountedApexData, b: MountedApexData) {
    if a.version != b.version then a.version < b.version
    else if Compare(a.loopName, b.loopName) < 0 then true
    else if Compare(a.loopName, b.loopName) > 0 then false
    else if Compare(a.fullPath, b.fullPath) < 0 then true
    else if Compare(a.fullPath, b.fullPath) > 0 then false
    else if Compare(a.mountPoint, b.mountPoint) < 0 then true
    else if Compare(a.mountPoint, b.mountPoint) > 0 then false
    else if Compare(a.deviceName, b.deviceName) < 0 then true
    else if Compare(a.deviceName, b.deviceName) > 0 then false
    else Compare(a.hashtreeLoopName, b.hashtreeLoopName) < 0
  }

  /** Equal in the six fields that operator< looks at. */
  predicate SameKey(a: MountedApexData, b: MountedApexData) {
    a.(deleted := false, isTempMount := false) == b.(deleted := false, isTempMount := false)
  }

  /** operator< is a strict total order on the compared fields. */
  lemma {:induction false} LessIsTotalOrder(a: MountedApexData, b: MountedApexData, c: MountedApexData)
    ensures !Less(a, a)
    ensures Less(a, b) && Less(b, c) ==> Less(a, c)
    ensures !(Less(a, b) && Less(b, a))
    ensures !Less(a, b) && !Less(b, a) <==> SameKey(a, b)
  {
    hide Compare;
    CompareThree(a.loopName, b.loopName, c.loopName);
    CompareThree(a.fullPath, b.fullPath, c.fullPath);
    CompareThree(a.mountPoint, b.mountPoint, c.mountPoint);
    CompareThree(a.deviceName, b.deviceName, c.deviceName);
    CompareThree(a.hashtreeLoopName, b.hashtreeLoopName, c.hashtreeLoopName);
  }

  lemma CompareThree(s: string, t: string, u: string)
    ensures Compare(s, t) < 0 <==> Compare(t, s) > 0
    ensures Compare(s, t) < 0 && Compare(t, u) < 0 ==> Compare(s, u) < 0
  {
    CompareAntisymmetric(s, t);
    if Compare(s, t) < 0 && Compare(t, u) < 0 {
      CompareTransitive(s, t, u);
    }
  }

  // ---------- Ordered sets ----------

  /** A std::set of mounts, in ascending order. */
  predicate Ascending(s: seq<MountedApexData>) {
    forall i, j :: 0 <= i < j < |s| ==> Less(s[i], s[j])
  }

  predicate HasKey(s: seq<MountedApexData>, x: MountedApexData) {
    exists i :: 0 <= i < |s| && SameKey(s[i], x)
  }

  /** Puts `x` where the order wants it. */
  function Insert(s: seq<MountedApexData>, x: MountedApexData): seq<MountedApexData> {
    if s == [] then [x]
    else if Less(s[|s| - 1], x) then s + [x]
    else Insert(s[..|s| - 1], x) + [s[|s| - 1]]
  }

  lemma {:induction false} InsertKeepsOrder(s: seq<MountedApexData>, x: MountedApexData)
    requires Ascending(s) && !HasKey(s, x)
    ensures Ascending(Insert(s, x))
    ensures multiset(Insert(s, x)) == multiset(s) + multiset{x}
    ensures |Insert(s, x)| == |s| + 1
    ensures Insert(s, x)[|s|] == if s == [] || Less(s[|s| - 1], x) then x else s[|s| - 1]
  {
    hide Less, SameKey;
    if s != [] {
      var init, last := s[..|s| - 1], s[|s| - 1];
      assert s == init + [last];
      LessIsTotalOrder(last, x, last);
      assert !SameKey(last, x);
      if Less(last, x) {
        forall i | 0 <= i < |s| ensures Less(s[i], x) {
          LessIsTotalOrder(s[i], last, x);
        }
      } else {
        forall i | 0 <= i < |init| ensures !SameKey(init[i], x) {
          assert init[i] == s[i];
        }
        InsertKeepsOrder(init, x);
        var t := Insert(init, x);
        forall i | 0 <= i < |t| ensures Less(t[i], last) {
          assert t[i] in multiset(t);
          if t[i] in multiset(init) {
            var j :| 0 <= j < |init| && init[j] == t[i];
            assert s[j] == init[j];
          } else {
            assert t[i] == x;
          }
        }
      }
    }
  }

  /** The last entry is the greatest. */
  lemma {:induction false} LastIsGreatest(s: seq<MountedApexData>, x: MountedApexData)
    requires Ascending(s) && x in s
    ensures x == s[|s| - 1] || Less(x, s[|s| - 1])
  {
    var i :| 0 <= i < |s| && s[i] == x;
  }

  // ---------- Device names ----------

  function LoopDevices(d: MountedApexData): set<string> {
    {d.loopName, d.hashtreeLoopName} - {""}
  }

  /** Two mounts use different devices. */
  predicate Apart(a: MountedApexData, b: MountedApexData) {
    && LoopDevices(a) !! LoopDevices(b)
    && (a.deviceName == "" || a.deviceName != b.deviceName)
  }

  /** A mount does not use one loop device twice. */
  predicate SoundAlone(d: MountedApexData) {
    d.loopName == "" || d.loopName != d.hashtreeLoopName
  }

  type Mounts = map<string, seq<MountedApexData>>

  ghost predicate ValidIndex(m: Mounts, p: string, i: int) {
    p in m && 0 <= i < |m[p]|
  }

  /** All non-empty loop, hash tree loop and dm names are pairwise distinct over all packages. */
  ghost predicate UniqueDevices(m: Mounts) {
    && (forall p, i :: ValidIndex(m, p, i) ==> SoundAlone(m[p][i]))
    && (forall p, i, q, j :: ValidIndex(m, p, i) && ValidIndex(m, q, j) && (p != q || i != j) ==>
          Apart(m[p][i], m[q][j]))
  }

  function Entries(m: Mounts, p: string): seq<MountedApexData> {
    if p in m then m[p] else []
  }

  class MountedApexDatabase {
    var mounted: Mounts

    ghost predicate Valid()
      reads this
    {
      forall p :: p in mounted ==> Ascending(mounted[p])
    }

    constructor ()
      ensures Valid() && mounted == map[] && UniqueDevices(mounted)
    {
      mounted := map[];
    }

    /** AddMountedApexLocked; the result is false when a CHECK aborts the process. */
    method AddMountedApex(package: string, data: MountedApexData) returns (alive: bool)
      requires Valid()
      modifies this
      ensures !HasKey(Entries(old(mounted), package), data) ==>
        Valid() && mounted == old(mounted)[package := Insert(Entries(old(mounted), package), data)]
      ensures alive <==> !HasKey(Entries(old(mounted), package), data) && UniqueDevices(mounted)
      ensures alive ==> multiset(mounted[package]) == multiset(Entries(old(mounted), package)) + multiset{data}
    {
      hide Less, SameKey, UniqueDevices;
      var entries := Entries(mounted, package);
      mounted := mounted[package := entries];
      if HasKey(entries, data) {
        return false;
      }
      InsertKeepsOrder(entries, data);
      mounted := mounted[package := Insert(entries, data)];
      alive := CheckUniqueLoopDm();
    }

    /** CheckUniqueLoopDm: collects the device names and stops at the first one seen before. */
    method CheckUniqueLoopDm() returns (ok: bool)
      ensures ok <==> UniqueDevices(mounted)
    {
      hide Ascending, Less, Collected, UniqueDevices, Apart;
      NothingCollected(mounted);
      var loops, dms := {}, {};
      var packages := List(mounted.Keys);
      ghost var seen: set<(string, int)> := {};
      for a := 0 to |packages|
        invariant SeenAre(mounted, seen, packages[..a], "", 0)
        invariant Collected(mounted, seen, loops, dms)
      {
        var p := packages[a];
        var entries := mounted[p];
        assert packages[..a + 1] == packages[..a] + [p];
        for i := 0 to |entries|
          invariant SeenAre(mounted, seen, packages[..a], p, i)
          invariant Collected(mounted, seen, loops, dms)
        {
          var d := entries[i];
          assert ValidIndex(mounted, p, i);
          if !SoundAlone(d) || (d.loopName != "" && d.loopName in loops) ||
             (d.deviceName != "" && d.deviceName in dms) ||
             (d.hashtreeLoopName != "" && d.hashtreeLoopName in loops) {
            Clash(mounted, seen, loops, dms, p, i);
            return false;
          }
          CollectOne(mounted, seen, loops, dms, p, i);
          loops, dms := loops + LoopDevices(d), dms + ({d.deviceName} - {""});
          seen := seen + {(p, i)};
        }
      }
      assert packages[..|packages|] == packages;
      AllSeen(mounted, seen, loops, dms, packages);
      ok := true;
    }

    /** Erases the first entry of the package with this path and kind, if there is one. */
    method RemoveMountedApex(package: string, fullPath: string, matchTempMounts: bool) returns (ghost at: int)
      requires Valid()
      modifies this
      ensures Valid()
      ensures at == -1 ==>
        && mounted == old(mounted)
        && forall i :: ValidIndex(mounted, package, i) ==> !Matches(mounted[package][i], fullPath, matchTempMounts)
      ensures at != -1 ==>
        && ValidIndex(old(mounted), package, at) && Matches(old(mounted)[package][at], fullPath, matchTempMounts)
        && (forall i :: 0 <= i < at ==> !Matches(old(mounted)[package][i], fullPath, matchTempMounts))
        && mounted == old(mounted)[package := old(mounted)[package][..at] + old(mounted)[package][at + 1..]]
      ensures UniqueDevices(old(mounted)) ==> UniqueDevices(mounted)
    {
      hide Less, UniqueDevices;
      at := -1;
      if package !in mounted {
        return;
      }
      var entries := mounted[package];
      for i := 0 to |entries|
        invariant mounted == old(mounted)
        invariant forall j :: 0 <= j < i ==> !Matches(entries[j], fullPath, matchTempMounts)
      {
        if entries[i].fullPath == fullPath && entries[i].isTempMount == matchTempMounts {
          mounted := mounted[package := entries[..i] + entries[i + 1..]];
          RemovalKeepsUnique(old(mounted), package, i);
          at := i;
          return;
        }
      }
    }

    /** DoIfLatest, up to the decision to run the handler. */
    method IsLatest(package: string, fullPath: string) returns (latest: bool)
      requires Valid() && package in mounted && mounted[package] != []
      ensures latest <==> mounted[package][|mounted[package]| - 1].fullPath == fullPath
      ensures forall d :: d in mounted[package] ==>
        d == mounted[package][|mounted[package]| - 1] || Less(d, mounted[package][|mounted[package]| - 1])
    {
      hide Less;
      var entries := mounted[package];
      latest := entries[|entries| - 1].fullPath == fullPath;
      forall d | d in entries ensures d == entries[|entries| - 1] || Less(d, entries[|entries| - 1]) {
        LastIsGreatest(entries, d);
      }
    }

    /** ForallMountedApexes for one package: what the handler is given, in order. */
    method ForallMountedApexes(package: string, matchTempMounts: bool) returns (visits: seq<(MountedApexData, bool)>)
      ensures visits == Visits(Entries(mounted, package), matchTempMounts)
    {
      hide Entries, VisitsBelow;
      var entries := Entries(mounted, package);
      NoVisitsBelow(entries, matchTempMounts);
      visits := [];
      var i := |entries|;
      while i > 0
        invariant 0 <= i <= |entries|
        invariant visits + VisitsBelow(entries, i, matchTempMounts) == Visits(entries, matchTempMounts)
      {
        i := i - 1;
        VisitsStep(entries, i, matchTempMounts, visits);
        if entries[i].isTempMount == matchTempMounts {
          visits := visits + [(entries[i], i == |entries| - 1)];
        }
      }
    }

    method GetLatestMountedApex(package: string) returns (r: Option<MountedApexData>)
      ensures r.Some? <==> Entries(mounted, package) != [] && !Last(Entries(mounted, package)).isTempMount
      ensures r.Some? ==> r.value == Last(Entries(mounted, package))
    {
      var visits := ForallMountedApexes(package, false);
      OnlyFirstVisitIsLatest(Entries(mounted, package), |Entries(mounted, package)|, false);
      r := None;
      for i := 0 to |visits|
        invariant r == if i > 0 && visits[0].1 then Some(visits[0].0) else None
      {
        if visits[i].1 {
          r := Some(visits[i].0);
        }
      }
    }

    /** UnmountTempMount: forgets every temp mount of a package, and nothing else. */
    method UnmountTempMount(package: string)
      requires Valid()
      modifies this
      ensures Valid() && (UniqueDevices(old(mounted)) ==> UniqueDevices(mounted))
      ensures package !in old(mounted) ==> mounted == old(mounted)
      ensures package in old(mounted) ==> mounted == old(mounted)[package := Lasting(old(mounted)[package])]
    {
      hide UniqueDevices, Ascending;
      var finished := false;
      while !finished
        invariant Valid() && (UniqueDevices(old(mounted)) ==> UniqueDevices(mounted))
        invariant package !in old(mounted) ==> mounted == old(mounted)
        invariant package in old(mounted) ==>
          && package in mounted
          && mounted == old(mounted)[package := mounted[package]]
          && Lasting(mounted[package]) == Lasting(old(mounted)[package])
        invariant finished ==> forall d :: d in Entries(mounted, package) ==> !d.isTempMount
        decreases !finished, |Entries(mounted, package)|
      {
        var temps := ForallMountedApexes(package, true);
        VisitsAreEntries(Entries(mounted, package), |Entries(mounted, package)|, true);
        if temps == [] {
          finished := true;
        } else {
          ghost var before := Entries(mounted, package);
          var at := RemoveMountedApex(package, temps[0].0.fullPath, true);
          LastingWithout(before, at);
        }
      }
      LastingOfLasting(Entries(mounted, package));
    }
  }

  predicate Matches(d: MountedApexData, fullPath: string, temp: bool) {
    d.fullPath == fullPath && d.isTempMount == temp
  }

  function Last(s: seq<MountedApexData>): MountedApexData
    requires s != []
  {
    s[|s| - 1]
  }

  /** The entries that are not temp mounts. */
  function Lasting(s: seq<MountedApexData>): seq<MountedApexData> {
    if s == [] then [] else (if s[0].isTempMount then [] else [s[0]]) + Lasting(s[1..])
  }

  /** Entries below `i` of the wanted kind, greatest first, each with whether it is the latest. */
  function VisitsBelow(s: seq<MountedApexData>, i: nat, temp: bool): seq<(MountedApexData, bool)>
    requires i <= |s|
  {
    if i == 0 then []
    else (if s[i - 1].isTempMount == temp then [(s[i - 1], i == |s|)] else []) + VisitsBelow(s, i - 1, temp)
  }

  function Visits(s: seq<MountedApexData>, temp: bool): seq<(MountedApexData, bool)> {
    VisitsBelow(s, |s|, temp)
  }

  lemma NoVisitsBelow(s: seq<MountedApexData>, temp: bool)
    ensures VisitsBelow(s, 0, temp) == []
  { }

  lemma VisitsStep(s: seq<MountedApexData>, i: nat, temp: bool, visits: seq<(MountedApexData, bool)>)
    requires i < |s|
    ensures s[i].isTempMount == temp ==>
      visits + VisitsBelow(s, i + 1, temp) == visits + [(s[i], i == |s| - 1)] + VisitsBelow(s, i, temp)
    ensures s[i].isTempMount != temp ==> VisitsBelow(s, i + 1, temp) == VisitsBelow(s, i, temp)
  {
    if s[i].isTempMount != temp {
      assert [] + VisitsBelow(s, i, temp) == VisitsBelow(s, i, temp);
    }
  }

  lemma {:induction false} OnlyFirstVisitIsLatest(s: seq<MountedApexData>, i: nat, temp: bool)
    requires i <= |s|
    ensures forall k :: 0 < k < |VisitsBelow(s, i, temp)| ==> !VisitsBelow(s, i, temp)[k].1
    ensures VisitsBelow(s, i, temp) != [] && VisitsBelow(s, i, temp)[0].1 ==>
      i == |s| && VisitsBelow(s, i, temp)[0].0 == Last(s)
    ensures i == |s| > 0 && Last(s).isTempMount == temp ==>
      VisitsBelow(s, i, temp) != [] && VisitsBelow(s, i, temp)[0] == (Last(s), true)
    ensures i == |s| > 0 && Last(s).isTempMount != temp ==>
      forall k :: 0 <= k < |VisitsBelow(s, i, temp)| ==> !VisitsBelow(s, i, temp)[k].1
  {
    if i > 0 {
      OnlyFirstVisitIsLatest(s, i - 1, temp);
    }
  }

  lemma {:induction false} VisitsAreEntries(s: seq<MountedApexData>, i: nat, temp: bool)
    requires i <= |s|
    ensures forall k ::
      0 <= k < |VisitsBelow(s, i, temp)| ==>
        VisitsBelow(s, i, temp)[k].0 in s && VisitsBelow(s, i, temp)[k].0.isTempMount == temp
    ensures VisitsBelow(s, i, temp) == [] ==> forall k :: 0 <= k < i ==> s[k].isTempMount != temp
  {
    if i > 0 {
      VisitsAreEntries(s, i - 1, temp);
    }
  }

  lemma {:induction false} LastingWithout(s: seq<MountedApexData>, at: int)
    requires 0 <= at < |s| && s[at].isTempMount
    ensures Lasting(s[..at] + s[at + 1..]) == Lasting(s)
  {
    if at == 0 {
      assert s[..0] + s[1..] == s[1..];
    } else {
      LastingWithout(s[1..], at - 1);
      assert (s[..at] + s[at + 1..])[1..] == s[1..][..at - 1] + s[1..][at..];
    }
  }

  lemma {:induction false} LastingOfLasting(s: seq<MountedApexData>)
    ensures (forall d :: d in s ==> !d.isTempMount) ==> Lasting(s) == s
  {
    if s != [] {
      LastingOfLasting(s[1..]);
      assert s == [s[0]] + s[1..];
    }
  }

  // ---------- Proof of CheckUniqueLoopDm ----------

  /** The entries looked at: those of the packages `done`, and the first `n` of package `p`. */
  ghost predicate SeenAre(m: Mounts, seen: set<(string, int)>, done: seq<string>, p: string, n: int) {
    forall q, i :: (q, i) in seen <==> ValidIndex(m, q, i) && (q in done || (q == p && i < n))
  }

  /** The names collected are those of the entries seen, which are pairwise apart. */
  ghost predicate Collected(m: Mounts, seen: set<(string, int)>, loops: set<string>, dms: set<string>) {
    && (forall p, i :: (p, i) in seen ==>
          && ValidIndex(m, p, i) && SoundAlone(m[p][i])
          && LoopDevices(m[p][i]) <= loops && (m[p][i].deviceName == "" || m[p][i].deviceName in dms))
    && (forall x :: x in loops ==> exists p, i :: (p, i) in seen && ValidIndex(m, p, i) && x in LoopDevices(m[p][i]))
    && (forall x :: x in dms ==> exists p, i :: (p, i) in seen && ValidIndex(m, p, i) && x == m[p][i].deviceName != "")
    && (forall p, i, q, j :: (p, i) in seen && (q, j) in seen && (p != q || i != j) ==>
          ValidIndex(m, p, i) && ValidIndex(m, q, j) && Apart(m[p][i], m[q][j]))
  }

  lemma NothingCollected(m: Mounts)
    ensures Collected(m, {}, {}, {})
  { }

  lemma Clash(m: Mounts, seen: set<(string, int)>, loops: set<string>, dms: set<string>, p: string, i: int)
    requires Collected(m, seen, loops, dms) && ValidIndex(m, p, i) && (p, i) !in seen
    requires !SoundAlone(m[p][i]) || !(LoopDevices(m[p][i]) !! loops) ||
      (m[p][i].deviceName != "" && m[p][i].deviceName in dms)
    ensures !UniqueDevices(m)
  {
    var d := m[p][i];
    if x :| x in LoopDevices(d) && x in loops {
      var q, j :| (q, j) in seen && ValidIndex(m, q, j) && x in LoopDevices(m[q][j]);
      assert !Apart(d, m[q][j]);
    } else if d.deviceName != "" && d.deviceName in dms {
      var q, j :| (q, j) in seen && ValidIndex(m, q, j) && d.deviceName == m[q][j].deviceName;
      assert !Apart(d, m[q][j]);
    }
  }

  lemma CollectOne(m: Mounts, seen: set<(string, int)>, loops: set<string>, dms: set<string>, p: string, i: int)
    requires Collected(m, seen, loops, dms) && ValidIndex(m, p, i) && (p, i) !in seen
    requires SoundAlone(m[p][i]) && LoopDevices(m[p][i]) !! loops
    requires (m[p][i].deviceName == "" || m[p][i].deviceName !in dms)
    ensures Collected(m, seen + {(p, i)}, loops + LoopDevices(m[p][i]), dms + ({m[p][i].deviceName} - {""}))
  {
    var d, seen', loops', dms' := m[p][i], seen + {(p, i)},
      loops + LoopDevices(m[p][i]), dms + ({m[p][i].deviceName} - {""});
    forall x | x in loops' ensures exists q, j :: (q, j) in seen' && ValidIndex(m, q, j) && x in LoopDevices(m[q][j]) {
      if x in loops {
        var q, j :| (q, j) in seen && ValidIndex(m, q, j) && x in LoopDevices(m[q][j]);
        assert (q, j) in seen';
      } else {
        assert (p, i) in seen';
      }
    }
    forall x | x in dms'
      ensures exists q, j :: (q, j) in seen' && ValidIndex(m, q, j) && x == m[q][j].deviceName != "" {
      if x in dms {
        var q, j :| (q, j) in seen && ValidIndex(m, q, j) && x == m[q][j].deviceName != "";
        assert (q, j) in seen';
      } else {
        assert (p, i) in seen';
      }
    }
    forall q, j | (q, j) in seen ensures Apart(d, m[q][j]) && Apart(m[q][j], d) { }
  }

  lemma AllSeen(m: Mounts, seen: set<(string, int)>, loops: set<string>, dms: set<string>, packages: seq<string>)
    requires Collected(m, seen, loops, dms) && IsListing(packages, m.Keys) && SeenAre(m, seen, packages, "", 0)
    ensures UniqueDevices(m)
  {
    forall p, i | ValidIndex(m, p, i) ensures (p, i) in seen { }
  }

  lemma RemovalKeepsUnique(m: Mounts, p: string, at: int)
    requires ValidIndex(m, p, at)
    ensures UniqueDevices(m) ==> UniqueDevices(m[p := m[p][..at] + m[p][at + 1..]])
  {
    if UniqueDevices(m) {
      var n := m[p := m[p][..at] + m[p][at + 1..]];
      forall q, i | ValidIndex(n, q, i)
        ensures ValidIndex(m, q, Shift(q == p, i, at)) && n[q][i] == m[q][Shift(q == p, i, at)] { }
      forall q, i | ValidIndex(n, q, i) ensures SoundAlone(n[q][i]) {
        assert ValidIndex(m, q, Shift(q == p, i, at));
      }
      forall q, i, r, j | ValidIndex(n, q, i) && ValidIndex(n, r, j) && (q != r || i != j)
        ensures Apart(n[q][i], n[r][j]) {
        assert ValidIndex(m, q, Shift(q == p, i, at)) && ValidIndex(m, r, Shift(r == p, j, at));
      }
    }
  }

  function Shift(shifted: bool, i: int, at: int): int {
    if shifted && i >= at then i + 1 else i
  }
}
