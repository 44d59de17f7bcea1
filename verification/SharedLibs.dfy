/** Populating /apex/sharedlibs: one symlink for each library directory, library and hash
    (apexd/apexd.cpp:1167-1266, 1730-1755). */
module SharedLibs {
  import opened Basics

  /** What is made below /apex/sharedlibs: a directory for a library, and a link for each of its hashes. */
  datatype Key = Library(dir: string, library: string) | Hash(dir: string, library: string, hash: string)

  /** An entry of a lib directory: a library's directory with one entry for each hash, or something else. */
  datatype LibEntry = LibEntry(name: string, isDirectory: bool, hashes: seq<string>)

  /** A mounted APEX: its mount point, its version, whether it is pre-installed, and the listings of those
      of its lib directories that exist. */
  datatype Contributor = Contributor(mountPoint: string, version: int,
                             preInstalled: bool, libDirs: map<string, seq<LibEntry>>)

  /** The directories, with an empty text, and the links, with their targets. */
  type Links = map<Key, string>

  /** The sizes of the files that can be examined, and the directories and links that cannot be made. */
  datatype World = World(sizes: map<string, nat>, refused: set<Key>)

  function Target(c: Contributor, k: Key): string {
    match k
    case Library(_, _) => ""
    case Hash(dir, library, hash) => c.mountPoint + "/" + dir + "/" + library + "/" + hash
  }

  // What an APEX offers, in the order of the walk

  function OfferedBy(dir: string, e: LibEntry): seq<Key> {
    if e.isDirectory then [Library(dir, e.name)] + Hashes(dir, e) else []
  }

  function Hashes(dir: string, e: LibEntry): seq<Key> {
    seq(|e.hashes|, i requires 0 <= i < |e.hashes| => Hash(dir, e.name, e.hashes[i]))
  }

  function OfferedIn(dir: string, entries: seq<LibEntry>): seq<Key> {
    if entries == [] then [] else OfferedIn(dir, entries[..|entries| - 1]) + OfferedBy(dir, entries[|entries| - 1])
  }

  function OfferedAt(c: Contributor, dir: string): seq<Key> {
    if dir in c.libDirs then OfferedIn(dir, c.libDirs[dir]) else []
  }

  function Offered(c: Contributor): seq<Key> {
    OfferedAt(c, "lib") + OfferedAt(c, "lib64")
  }

  /** Directories list no name twice. */
  ghost predicate Distinct(keys: seq<Key>) {
    forall i, j :: 0 <= i < j < |keys| ==> keys[i] != keys[j]
  }

  /** The left-biased union: what exists stays, and the other keys offered point to the contributor. */
  ghost predicate IsUnion(before: Links, after: Links, c: Contributor, keys: seq<Key>) {
    forall k :: Get(after, k) == if k in before then Some(before[k]) else if k in keys then Some(Target(c, k)) else None
  }

  function SizeOf(w: World, target: string, k: Key): Option<nat> {
    Get(w.sizes, target + "/" + k.library)
  }

  /** A key goes wrong: the link exists and the two files cannot be examined or differ in size, or the
      link or directory does not exist and cannot be made. */
  predicate Clashes(links: Links, c: Contributor, k: Key, w: World) {
    if k in links then
      k.Hash? && (SizeOf(w, links[k], k).None? ||
           SizeOf(w, Target(c, k), k).None? || SizeOf(w, links[k], k) != SizeOf(w, Target(c, k), k))
    else k in w.refused
  }

  /** A walk over `keys` that starts with the links `before`: without an error it has made the union and
      met no clash; an error comes from a clash after the union with some of the keys. */
  ghost predicate Walked(before: Links, after: Links, c: Contributor, keys: seq<Key>, w: World, ok: bool) {
    exists n :: WalkedTo(before, after, c, keys, w, ok, n)
  }

  ghost predicate WalkedTo(before: Links, after: Links, c: Contributor, keys: seq<Key>, w: World, ok: bool, n: nat) {
    && n <= |keys| && (ok <==> n == |keys|)
    && IsUnion(before, after, c, keys[..n])
    && (forall i :: 0 <= i < n ==> !Clashes(before, c, keys[i], w))
    && (n < |keys| ==> Clashes(before, c, keys[n], w))
  }

  class SharedLibsDir {
    var links: Links

    /** The innermost loop: one library. */
    method ContributeLibrary(c: Contributor, dir: string, e: LibEntry, w: World, ghost before: Links,
                             ghost done: seq<Key>)
      returns (ok: bool)
      requires e.isDirectory && Distinct(done + OfferedBy(dir, e))
      requires WalkedTo(before, links, c, done, w, true, |done|)
      modifies `links
      ensures Walked(before, links, c, done + OfferedBy(dir, e), w, ok)
    {
      hide Clashes, Target, WalkedTo, Distinct, Hashes;
      ghost var directory := done + [Library(dir, e.name)];
      ghost var was := links;
      LibraryFirst(dir, e, done);
      ok := MakeDirectory(c, Library(dir, e.name), w);
      WalkOn(before, was, links, c, done, Library(dir, e.name), w, ok);
      if !ok {
        ErrorStays(before, links, c, directory, done + OfferedBy(dir, e), w);
        return;
      }
      ok := ContributeHashes(c, dir, e, w, before, directory);
    }

    lemma LibraryFirst(dir: string, e: LibEntry, done: seq<Key>)
      requires e.isDirectory && Distinct(done + OfferedBy(dir, e))
      ensures done + OfferedBy(dir, e) == done + [Library(dir, e.name)] + Hashes(dir, e)
      ensures done + [Library(dir, e.name)] <= done + OfferedBy(dir, e) && Library(dir, e.name) !in done
    {
      hide Hashes, Distinct;
      NotYetDone(done, OfferedBy(dir, e), 0);
    }

    /** The loop over the hashes of a library. */
    method ContributeHashes(c: Contributor, dir: string, e: LibEntry, w: World, ghost before: Links,
                            ghost done: seq<Key>) returns (ok: bool)
      requires Distinct(done + Hashes(dir, e))
      requires WalkedTo(before, links, c, done, w, true, |done|)
      modifies `links
      ensures Walked(before, links, c, done + Hashes(dir, e), w, ok)
    {
      hide Clashes, Target, WalkedTo, Distinct;
      ghost var keys := Hashes(dir, e);
      assert done + keys[..0] == done;
      for i := 0 to |e.hashes|
        invariant WalkedTo(before, links, c, done + keys[..i], w, true, |done| + i)
      {
        var k := Hash(dir, e.name, e.hashes[i]);
        OneKeyMore(done, keys, i);
        ghost var was := links;
        ok := Link(c, k, w);
        WalkOn(before, was, links, c, done + keys[..i], k, w, ok);
        if !ok {
          ErrorStays(before, links, c, done + keys[..i + 1], done + keys, w);
          return;
        }
      }
      ok := true;
      assert keys[..|keys|] == keys && |done + keys| == |done| + |keys|;
    }

    lemma OneKeyMore(done: seq<Key>, keys: seq<Key>, i: nat)
      requires Distinct(done + keys) && i < |keys|
      ensures done + keys[..i + 1] == done + keys[..i] + [keys[i]] && done + keys[..i + 1] <= done + keys
      ensures keys[i] !in done + keys[..i]
    {
      hide Distinct;
      NotYetDone(done, keys, i);
    }

    /** Creates the directory of a library, unless it is there. */
    method MakeDirectory(c: Contributor, k: Key, w: World) returns (ok: bool)
      requires k.Library?
      modifies `links
      ensures ok <==> !Clashes(old(links), c, k, w)
      ensures links == if ok && k !in old(links) then old(links)[k := Target(c, k)] else old(links)
    {
      if k !in links {
        if k in w.refused {
          return false;
        }
        links := links[k := ""];
      }
      ok := true;
    }

    lemma NotYetDone(done: seq<Key>, keys: seq<Key>, i: nat)
      requires Distinct(done + keys) && i < |keys|
      ensures keys[i] !in done + keys[..i]
    {
      assert (done + keys)[|done| + i] == keys[i];
      forall j | 0 <= j < |done| + i ensures (done + keys[..i])[j] == (done + keys)[j] { }
    }

    /** One key more on a walk. */
    lemma WalkOn(before: Links, was: Links, now: Links, c: Contributor, keys: seq<Key>, k: Key, w: World, ok: bool)
      requires WalkedTo(before, was, c, keys, w, true, |keys|) && k !in keys
      requires ok <==> !Clashes(was, c, k, w)
      requires now == if ok && k !in was then was[k := Target(c, k)] else was
      ensures Walked(before, now, c, keys + [k], w, ok)
      ensures ok ==> WalkedTo(before, now, c, keys + [k], w, true, |keys| + 1)
    {
      hide Clashes, Target;
      assert keys[..|keys|] == keys && (keys + [k])[..|keys|] == keys && (keys + [k])[..|keys| + 1] == keys + [k];
      assert Get(was, k) == Get(before, k);
      ClashDependsOnKey(was, before, c, k, w);
      if ok {
        assert WalkedTo(before, now, c, keys + [k], w, true, |keys| + 1);
      } else {
        assert WalkedTo(before, now, c, keys + [k], w, false, |keys|);
      }
    }

    /** The body of the innermost loop. */
    method Link(c: Contributor, k: Key, w: World) returns (ok: bool)
      requires k.Hash?
      modifies `links
      ensures ok <==> !Clashes(old(links), c, k, w)
      ensures links == if ok && k !in old(links) then old(links)[k := Target(c, k)] else old(links)
    {
      if k in links {
        var existing := SizeOf(w, links[k], k);
        if existing.None? {
          return false;
        }
        var size := SizeOf(w, Target(c, k), k);
        if size.None? {
          return false;
        }
        return existing == size;
      }
      if k in w.refused {
        return false;
      }
      links := links[k := Target(c, k)];
      ok := true;
    }

    lemma ClashDependsOnKey(a: Links, b: Links, c: Contributor, k: Key, w: World)
      requires Get(a, k) == Get(b, k)
      ensures Clashes(a, c, k, w) <==> Clashes(b, c, k, w)
    { }

    /** The middle loop: the entries of one lib directory. */
    method ContributeDirectory(c: Contributor, dir: string, w: World, ghost before: Links, ghost done: seq<Key>)
      returns (ok: bool)
      requires dir in c.libDirs && Distinct(done + OfferedIn(dir, c.libDirs[dir]))
      requires WalkedTo(before, links, c, done, w, true, |done|)
      modifies `links
      ensures Walked(before, links, c, done + OfferedIn(dir, c.libDirs[dir]), w, ok)
    {
      hide WalkedTo, OfferedBy;
      var entries := c.libDirs[dir];
      ghost var all := done + OfferedIn(dir, entries);
      assert done + OfferedIn(dir, entries[..0]) == done;
      for i := 0 to |entries|
        invariant WalkedTo(before, links, c, done + OfferedIn(dir, entries[..i]), w, true,
            |done + OfferedIn(dir, entries[..i])|)
      {
        ghost var sofar := done + OfferedIn(dir, entries[..i]);
        OfferedPrefix(dir, entries, i + 1);
        assert entries[..i + 1][..i] == entries[..i];
        assert done + OfferedIn(dir, entries[..i + 1]) == sofar + OfferedBy(dir, entries[i]);
        assert sofar + OfferedBy(dir, entries[i]) <= all;
        if !entries[i].isDirectory {
          NothingOffered(dir, entries[i]);
          assert sofar + [] == sofar;
          continue;
        }
        ok := ContributeLibrary(c, dir, entries[i], w, before, sofar);
        if !ok {
          ErrorStays(before, links, c, sofar + OfferedBy(dir, entries[i]), all, w);
          return;
        }
        WalkedThrough(before, links, c, sofar + OfferedBy(dir, entries[i]), w);
      }
      ok := true;
      assert entries[..|entries|] == entries;
    }

    /** ContributeToSharedLibs. */
    method ContributeToSharedLibs(c: Contributor, w: World) returns (ok: bool)
      requires Distinct(Offered(c))
      modifies `links
      ensures Walked(old(links), links, c, Offered(c), w, ok)
    {
      hide WalkedTo;
      ghost var before, lib := links, OfferedAt(c, "lib");
      NothingWalked(before, c, w);
      ok := true;
      assert [] + lib == lib && lib + OfferedAt(c, "lib64") == Offered(c);
      if "lib" in c.libDirs {
        assert lib <= Offered(c);
        ok := ContributeDirectory(c, "lib", w, before, []);
        if !ok {
          ErrorStays(before, links, c, lib, Offered(c), w);
          return;
        }
        WalkedThrough(before, links, c, lib, w);
      }
      if "lib64" in c.libDirs {
        ok := ContributeDirectory(c, "lib64", w, before, lib);
      } else {
        assert lib + [] == lib;
      }
    }

    lemma NothingWalked(before: Links, c: Contributor, w: World)
      ensures WalkedTo(before, before, c, [], w, true, 0)
    { }

    lemma NothingOffered(dir: string, e: LibEntry)
      requires !e.isDirectory
      ensures OfferedBy(dir, e) == []
    { }

    lemma {:induction false} OfferedPrefix(dir: string, entries: seq<LibEntry>, n: nat)
      requires n <= |entries|
      ensures OfferedIn(dir, entries[..n]) <= OfferedIn(dir, entries)
    {
      if n < |entries| {
        OfferedPrefix(dir, entries[..|entries| - 1], n);
        assert entries[..|entries| - 1][..n] == entries[..n];
      } else {
        assert entries[..n] == entries;
      }
    }

    /** A walk without an error went all the way. */
    lemma WalkedThrough(before: Links, after: Links, c: Contributor, keys: seq<Key>, w: World)
      requires Walked(before, after, c, keys, w, true)
      ensures WalkedTo(before, after, c, keys, w, true, |keys|)
    {
      var n: nat :| WalkedTo(before, after, c, keys, w, true, n);
    }

    /** What comes after an error is not walked. */
    lemma ErrorStays(before: Links, after: Links, c: Contributor, keys: seq<Key>, all: seq<Key>, w: World)
      requires Walked(before, after, c, keys, w, false) && keys <= all
      ensures Walked(before, after, c, all, w, false)
    {
      hide Clashes;
      var n: nat :| WalkedTo(before, after, c, keys, w, false, n);
      assert all[..n] == keys[..n];
      assert WalkedTo(before, after, c, all, w, false, n);
    }

    /** The loop of ActivateApexPackages over the activated shared-library APEXes: an error is counted
        and the next one contributes all the same. */
    method Populate(contributors: seq<Contributor>, w: World)
      returns (failed: nat, ghost trace: seq<Links>, ghost oks: seq<bool>)
      requires forall i :: 0 <= i < |contributors| ==> Distinct(Offered(contributors[i]))
      modifies `links
      ensures |trace| == |contributors| + 1 && Traced(contributors, w, trace, oks) && trace[0] == old(links)
      ensures trace[|contributors|] == links
      ensures failed == 0 <==> AllTrue(oks)
    {
      hide Walked, Traced, Offered, Distinct;
      failed := 0;
      trace, oks := [links], [];
      NothingTraced(w, links);
      for i := 0 to |contributors|
        invariant |trace| == i + 1 && trace[0] == old(links) && trace[i] == links
        invariant Traced(contributors[..i], w, trace, oks)
        invariant failed == 0 <==> AllTrue(oks)
      {
        var ok := ContributeToSharedLibs(contributors[i], w);
        if !ok {
          failed := failed + 1;
        }
        assert contributors[..i + 1] == contributors[..i] + [contributors[i]];
        OneMoreTraced(contributors[..i], w, trace, oks, contributors[i], links, ok);
        trace, oks := trace + [links], oks + [ok];
      }
      assert contributors[..|contributors|] == contributors;
    }
  }

  ghost predicate AllTrue(oks: seq<bool>) {
    forall i :: 0 <= i < |oks| ==> oks[i]
  }

  lemma NothingTraced(w: World, links: Links)
    ensures Traced([], w, [links], []) && AllTrue([])
  { }

  lemma OneMoreTraced(contributors: seq<Contributor>, w: World, trace: seq<Links>, oks: seq<bool>, c: Contributor,
                      now: Links, ok: bool)
    requires Traced(contributors, w, trace, oks) && |trace| == |contributors| + 1
    requires Walked(trace[|contributors|], now, c, Offered(c), w, ok)
    ensures Traced(contributors + [c], w, trace + [now], oks + [ok])
    ensures AllTrue(oks + [ok]) <==> AllTrue(oks) && ok
  {
    hide Walked, Offered;
    assert AllTrue(oks + [ok]) ==> (oks + [ok])[|oks|];
    if AllTrue(oks + [ok]) {
      forall i | 0 <= i < |oks| ensures oks[i] {
        assert (oks + [ok])[i] == oks[i];
      }
    }
  }

  /** The links before, between and after the contributions. */
  ghost predicate Traced(contributors: seq<Contributor>, w: World, trace: seq<Links>, oks: seq<bool>) {
    && |oks| == |contributors| && |trace| == |contributors| + 1
    && forall i :: 0 <= i < |contributors| ==>
         Walked(trace[i], trace[i + 1], contributors[i], Offered(contributors[i]), w, oks[i])
  }

  /** No link changes, on error paths either. */
  lemma {:induction false} LinksStay(contributors: seq<Contributor>, w: World, trace: seq<Links>, oks: seq<bool>,
                                     k: Key, i: nat)
    requires Traced(contributors, w, trace, oks) && i <= |contributors| && k in trace[i]
    ensures k in trace[|contributors|] && trace[|contributors|][k] == trace[i][k]
    decreases |contributors| - i
  {
    hide Clashes;
    if i < |contributors| {
      assert Walked(trace[i], trace[i + 1], contributors[i], Offered(contributors[i]), w, oks[i]);
      assert Get(trace[i + 1], k) == Some(trace[i][k]);
      LinksStay(contributors, w, trace, oks, k, i + 1);
    }
  }

  /** The first contributor, in order, that offers a key. */
  predicate FirstToOffer(contributors: seq<Contributor>, k: Key, i: nat) {
    i < |contributors| && k in Offered(contributors[i]) && forall j :: 0 <= j < i ==> k !in Offered(contributors[j])
  }

  /** Without an error the result is the left-biased union over the whole list: an old link if there was
      one, else a link to the first contributor that offers the key, else none. */
  lemma {:induction false} LeftBiasedUnion(contributors: seq<Contributor>, w: World, trace: seq<Links>,
                                           oks: seq<bool>, k: Key)
    requires Traced(contributors, w, trace, oks) && AllTrue(oks)
    ensures k in trace[0] ==> Get(trace[|contributors|], k) == Some(trace[0][k])
    ensures forall i: nat :: k !in trace[0] && FirstToOffer(contributors, k, i) ==>
      Get(trace[|contributors|], k) == Some(Target(contributors[i], k))
    ensures k !in trace[0] && (forall i :: 0 <= i < |contributors| ==> k !in Offered(contributors[i])) ==>
      k !in trace[|contributors|]
    decreases |contributors|
  {
    hide Clashes, Target, Offered;
    if contributors != [] {
      var n := |contributors| - 1;
      var init := contributors[..n];
      LeftBiasedUnion(init, w, trace[..n + 1], oks[..n], k);
      WalkIsUnion(trace[n], trace[n + 1], contributors[n], w);
      forall i: nat | k !in trace[0] && FirstToOffer(contributors, k, i)
        ensures Get(trace[|contributors|], k) == Some(Target(contributors[i], k)) {
        if i < n {
          assert FirstToOffer(init, k, i);
        }
      }
    }
  }

  lemma WalkIsUnion(before: Links, after: Links, c: Contributor, w: World)
    requires Walked(before, after, c, Offered(c), w, true)
    ensures IsUnion(before, after, c, Offered(c))
  {
    hide Clashes;
    var n: nat :| WalkedTo(before, after, c, Offered(c), w, true, n);
    assert Offered(c)[..n] == Offered(c);
  }

  /** With the contributors in order of falling versions, no contributor of a new link has a higher version. */
  lemma {:induction false} HighestVersionIsLinked(contributors: seq<Contributor>, w: World, trace: seq<Links>,
                                                  oks: seq<bool>, k: Key, i: nat)
    requires Traced(contributors, w, trace, oks) && AllTrue(oks)
    requires Falling(contributors)
    requires k !in trace[0] && i < |contributors| && k in Offered(contributors[i])
    ensures exists j ::
      0 <= j <= i && Get(trace[|contributors|], k) == Some(Target(contributors[j], k)) &&
        contributors[j].version >= contributors[i].version
  {
    hide Clashes, Target, Offered;
    LeftBiasedUnion(contributors, w, trace, oks, k);
    var j: nat := FirstIndex(contributors, k, i);
    assert FirstToOffer(contributors, k, j);
    assert j < i ==> InOrder(contributors[j], contributors[i]);
  }

  lemma {:induction false} FirstIndex(contributors: seq<Contributor>, k: Key, i: nat) returns (j: nat)
    requires i < |contributors| && k in Offered(contributors[i])
    ensures j <= i && FirstToOffer(contributors, k, j)
  {
    hide Offered;
    j := 0;
    while k !in Offered(contributors[j])
      invariant j <= i && forall l :: 0 <= l < j ==> k !in Offered(contributors[l])
      decreases i - j
    {
      j := j + 1;
    }
  }

  /** The comparator of the sort: the higher version first and, of equal versions, the updated APEX. */
  predicate ContributesBefore(a: Contributor, b: Contributor) {
    if a.version != b.version then a.version > b.version else !a.preInstalled
  }

  /** Puts `c` before the first contributor that it comes before. */
  function Placed(c: Contributor, cs: seq<Contributor>): seq<Contributor> {
    if cs == [] then [c]
    else if ContributesBefore(c, cs[0]) then [c] + cs
    else [cs[0]] + Placed(c, cs[1..])
  }

  function Sorted(cs: seq<Contributor>): seq<Contributor> {
    if cs == [] then [] else Placed(cs[|cs| - 1], Sorted(cs[..|cs| - 1]))
  }

  /** Higher versions first and, of equal versions, no pre-installed APEX before an updated one. */
  predicate InOrder(a: Contributor, b: Contributor) {
    a.version > b.version || (a.version == b.version && (a.preInstalled ==> b.preInstalled))
  }

  ghost predicate Falling(cs: seq<Contributor>) {
    forall i, j :: 0 <= i < j < |cs| ==> InOrder(cs[i], cs[j])
  }

  lemma {:induction false} PlacedHas(c: Contributor, cs: seq<Contributor>)
    ensures multiset(Placed(c, cs)) == multiset(cs) + multiset{c}
  {
    hide ContributesBefore;
    if cs != [] {
      assert cs == [cs[0]] + cs[1..];
      if !ContributesBefore(c, cs[0]) {
        PlacedHas(c, cs[1..]);
      }
    }
  }

  lemma {:induction false} PlacedKeepsOrder(c: Contributor, cs: seq<Contributor>)
    requires Falling(cs)
    ensures Falling(Placed(c, cs))
  {
    if cs != [] {
      if ContributesBefore(c, cs[0]) {
        forall j | 0 <= j < |cs| ensures InOrder(c, cs[j]) {
          assert j > 0 ==> InOrder(cs[0], cs[j]);
        }
      } else {
        PlacedKeepsOrder(c, cs[1..]);
        PlacedHas(c, cs[1..]);
        FirstBefore(c, cs);
      }
      hide ContributesBefore, InOrder;
    }
  }

  lemma FirstBefore(c: Contributor, cs: seq<Contributor>)
    requires Falling(cs) && cs != [] && !ContributesBefore(c, cs[0])
    requires multiset(Placed(c, cs[1..])) == multiset(cs[1..]) + multiset{c}
    ensures forall j :: 0 <= j < |Placed(c, cs[1..])| ==> InOrder(cs[0], Placed(c, cs[1..])[j])
  {
    var rest := Placed(c, cs[1..]);
    hide Placed;
    forall j | 0 <= j < |rest| ensures InOrder(cs[0], rest[j]) {
      assert rest[j] in multiset(rest);
      if rest[j] in cs[1..] {
        var i :| 0 <= i < |cs[1..]| && cs[1..][i] == rest[j];
        assert InOrder(cs[0], cs[i + 1]);
      }
    }
  }

  /** The order in which APEXes contribute: a permutation with falling versions, whatever the order in
      which the workers reported them. */
  lemma {:induction false} SortedIsFalling(cs: seq<Contributor>)
    ensures Falling(Sorted(cs)) && multiset(Sorted(cs)) == multiset(cs)
  {
    if cs != [] {
      var n := |cs| - 1;
      SortedIsFalling(cs[..n]);
      PlacedKeepsOrder(cs[n], Sorted(cs[..n]));
      PlacedHas(cs[n], Sorted(cs[..n]));
      assert cs == cs[..n] + [cs[n]];
    }
  }

  /** What a sort demands of its comparator. */
  ghost predicate StrictWeakOrder(cs: set<Contributor>) {
    && (forall a :: a in cs ==> !ContributesBefore(a, a))
    && (forall a, b :: a in cs && b in cs ==> !(ContributesBefore(a, b) && ContributesBefore(b, a)))
    && (forall a, b, c :: a in cs && b in cs && c in cs && ContributesBefore(a, b) && ContributesBefore(b, c) ==>
          ContributesBefore(a, c))
    && (forall a, b, c :: a in cs && b in cs && c in cs && ContributesBefore(a, c) ==>
          ContributesBefore(a, b) || ContributesBefore(b, c))
  }

  /** The comparator meets that demand exactly if every APEX is pre-installed: it puts an updated APEX
      before itself. */
  lemma {:induction false} ComparatorIsStrictOnPreInstalled(cs: set<Contributor>)
    ensures StrictWeakOrder(cs) <==> forall c :: c in cs ==> c.preInstalled
  {
    if StrictWeakOrder(cs) {
      forall c | c in cs ensures c.preInstalled {
        assert !ContributesBefore(c, c);
      }
    }
  }

  /** On the two APEXes there can be, one of each kind, it nevertheless decides one way, and for the
      order that HighestVersionIsLinked supposes. */
  lemma {:induction false} ComparatorDecidesPair(pre: Contributor, updated: Contributor)
    requires pre.preInstalled && !updated.preInstalled
    ensures ContributesBefore(pre, updated) <==> !ContributesBefore(updated, pre)
    ensures ContributesBefore(pre, updated) <==> pre.version > updated.version
  { }
}
