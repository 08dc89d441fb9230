// Mount points: which mounts a path resolves to, what unmount removes, and how claims of
// volumes are kept in step with mounts (lib/vfs/Storage_p.hpp, lib/vfs/MountPointEntry.cpp).

module Mounts {
  import opened Wrappers
  import opened Serialization
  import opened Records
  import opened Paths
  import opened ClaimTokens
  import opened Volumes

  /** Volumes are known by a number; zero stands for null. */
  datatype Mount = Mount(mountPath: Bytes, entryPath: Bytes, volume: nat, priority: nat)

  /** The mount points in the order of the mount-path index, and the claims each volume records. */
  datatype Vfs = Vfs(points: seq<Mount>, claims: map<nat, Claims>)

  /** The token of this storage. */
  const ME: nat := 1

  function ClaimOf(s: Vfs, volume: nat): Claims {
    if volume in s.claims then s.claims[volume] else UNCLAIMED
  }

  // ---------------------------------------------------------------------------
  // The index by mount path: ordered, equal paths in the order of insertion

  predicate Less(a: Bytes, b: Bytes) {
    b != [] && (a == [] || a[0] < b[0] || (a[0] == b[0] && Less(a[1..], b[1..])))
  }

  lemma {:induction false} LessIsTotal(a: Bytes, b: Bytes)
    ensures !(Less(a, b) && Less(b, a))
    ensures Less(a, b) || Less(b, a) <==> a != b
    decreases |a|
  {
    if a != [] && b != [] {
      LessIsTotal(a[1..], b[1..]);
      assert a == [a[0]] + a[1..] && b == [b[0]] + b[1..];
    }
  }

  lemma {:induction false} LessTransitive(a: Bytes, b: Bytes, c: Bytes)
    requires Less(a, b) && (Less(b, c) || b == c)
    ensures Less(a, c)
    decreases |a|
  {
    if a != [] && a[0] == b[0] && b != c && b[0] == c[0] {
      LessTransitive(a[1..], b[1..], c[1..]);
    }
  }

  ghost predicate Sorted(ps: seq<Mount>) {
    forall i, j :: 0 <= i < j < |ps| ==> !Less(ps[j].mountPath, ps[i].mountPath)
  }

  /** Insertion after the last mount whose path is not greater. */
  function Inserted(ps: seq<Mount>, m: Mount): seq<Mount> {
    if ps == [] then [m]
    else if Less(m.mountPath, ps[0].mountPath) then [m] + ps
    else [ps[0]] + Inserted(ps[1..], m)
  }

  /** The first position whose path is not less (or, past equals, is greater) than `path`. */
  function LowerBound(ps: seq<Mount>, path: Bytes): (i: nat)
    ensures i <= |ps|
  {
    if ps == [] || !Less(ps[0].mountPath, path) then 0 else 1 + LowerBound(ps[1..], path)
  }

  function UpperBound(ps: seq<Mount>, path: Bytes): (i: nat)
    ensures i <= |ps|
  {
    if ps == [] || Less(path, ps[0].mountPath) then 0 else 1 + UpperBound(ps[1..], path)
  }

  /** All mounts at a path, first mounted first. */
  function Matching(ps: seq<Mount>, path: Bytes): seq<Mount> {
    if ps == [] then []
    else if ps[0].mountPath == path then [ps[0]] + Matching(ps[1..], path)
    else Matching(ps[1..], path)
  }

  lemma SortedTail(ps: seq<Mount>)
    requires Sorted(ps) && ps != []
    ensures Sorted(ps[1..])
    ensures forall i :: 0 <= i < |ps[1..]| ==> !Less(ps[1..][i].mountPath, ps[0].mountPath)
  {
  }

  lemma {:induction false} NoneMatch(ps: seq<Mount>, path: Bytes)
    requires forall i :: 0 <= i < |ps| ==> ps[i].mountPath != path
    ensures Matching(ps, path) == []
  {
    if ps != [] {
      assert forall i :: 0 <= i < |ps[1..]| ==> ps[1..][i] == ps[i + 1];
      NoneMatch(ps[1..], path);
    }
  }

  lemma {:induction false} BoundsOrdered(ps: seq<Mount>, path: Bytes)
    ensures LowerBound(ps, path) <= UpperBound(ps, path)
  {
    if ps != [] {
      BoundsOrdered(ps[1..], path);
      LessIsTotal(ps[0].mountPath, path);
    }
  }

  lemma {:induction false} UpperIsGreater(ps: seq<Mount>, path: Bytes)
    requires Sorted(ps)
    ensures forall i :: 0 <= i < |ps| ==> (UpperBound(ps, path) <= i <==> Less(path, ps[i].mountPath))
  {
    if ps != [] {
      SortedTail(ps);
      UpperIsGreater(ps[1..], path);
      forall i | 0 < i < |ps| ensures UpperBound(ps, path) <= i <==> Less(path, ps[i].mountPath) {
        assert ps[i] == ps[1..][i - 1];
        if Less(path, ps[0].mountPath) {
          LessIsTotal(ps[i].mountPath, ps[0].mountPath);
          LessTransitive(path, ps[0].mountPath, ps[i].mountPath);
        }
      }
    }
  }

  /** equal_range: exactly the mounts at the path, in insertion order. */
  lemma {:induction false} RangeIsMatching(ps: seq<Mount>, path: Bytes)
    requires Sorted(ps)
    ensures LowerBound(ps, path) <= UpperBound(ps, path)
    ensures ps[LowerBound(ps, path)..UpperBound(ps, path)] == Matching(ps, path)
  {
    BoundsOrdered(ps, path);
    if ps != [] {
      SortedTail(ps);
      RangeIsMatching(ps[1..], path);
      LessIsTotal(ps[0].mountPath, path);
      if Less(path, ps[0].mountPath) {
        UpperIsGreater(ps, path);
        forall i | 0 <= i < |ps| ensures ps[i].mountPath != path {
          LessIsTotal(path, ps[i].mountPath);
        }
        NoneMatch(ps, path);
      } else if ps[0].mountPath == path {
        NothingLess(ps[1..], path);
        var hi := UpperBound(ps, path);
        assert ps[0..hi] == [ps[0]] + ps[1..][0..hi - 1];
      } else {
        var lo, hi := LowerBound(ps, path), UpperBound(ps, path);
        assert ps[lo..hi] == ps[1..][lo - 1..hi - 1];
      }
    }
  }

  lemma NothingLess(ps: seq<Mount>, path: Bytes)
    requires forall i :: 0 <= i < |ps| ==> !Less(ps[i].mountPath, path)
    ensures LowerBound(ps, path) == 0
  {
  }

  lemma {:induction false} InsertedSorted(ps: seq<Mount>, m: Mount)
    requires Sorted(ps)
    ensures Sorted(Inserted(ps, m))
    ensures multiset(Inserted(ps, m)) == multiset(ps) + multiset{m}
    ensures forall path :: Matching(Inserted(ps, m), path)
                        == Matching(ps, path) + if path == m.mountPath then [m] else []
  {
    if ps == [] {
    } else if Less(m.mountPath, ps[0].mountPath) {
      InsertFront(ps, m);
    } else {
      SortedTail(ps);
      InsertedSorted(ps[1..], m);
      InsertBehind(ps, m);
    }
  }

  lemma InsertFront(ps: seq<Mount>, m: Mount)
    requires Sorted(ps) && ps != [] && Less(m.mountPath, ps[0].mountPath)
    ensures Sorted([m] + ps)
    ensures multiset([m] + ps) == multiset(ps) + multiset{m}
    ensures forall path :: Matching([m] + ps, path) == Matching(ps, path) + if path == m.mountPath then [m] else []
  {
    forall i | 0 <= i < |ps| ensures Less(m.mountPath, ps[i].mountPath) {
      LessIsTotal(ps[i].mountPath, ps[0].mountPath);
      if i > 0 {
        LessTransitive(m.mountPath, ps[0].mountPath, ps[i].mountPath);
      }
    }
    forall i, j | 0 <= i < j < |[m] + ps| ensures !Less(([m] + ps)[j].mountPath, ([m] + ps)[i].mountPath) {
      if i == 0 {
        LessIsTotal(m.mountPath, ps[j - 1].mountPath);
      }
    }
    forall i | 0 <= i < |ps| ensures ps[i].mountPath != m.mountPath {
      LessIsTotal(m.mountPath, ps[i].mountPath);
    }
    NoneMatch(ps, m.mountPath);
    forall path ensures Matching([m] + ps, path) == Matching(ps, path) + if path == m.mountPath then [m] else [] {
      assert ([m] + ps)[1..] == ps;
      if path == m.mountPath {
        assert [m] + Matching(ps, path) == Matching(ps, path) + [m];
      } else {
        assert Matching(ps, path) + [] == Matching(ps, path);
      }
    }
  }

  lemma InsertBehind(ps: seq<Mount>, m: Mount)
    requires ps != [] && !Less(m.mountPath, ps[0].mountPath)
    requires var rest := Inserted(ps[1..], m);
             && Sorted(rest) && multiset(rest) == multiset(ps[1..]) + multiset{m}
             && forall path :: Matching(rest, path) == Matching(ps[1..], path) + if path == m.mountPath then [m] else []
    requires forall i :: 0 <= i < |ps[1..]| ==> !Less(ps[1..][i].mountPath, ps[0].mountPath)
    ensures Sorted(Inserted(ps, m))
    ensures multiset(Inserted(ps, m)) == multiset(ps) + multiset{m}
    ensures forall path :: Matching(Inserted(ps, m), path)
                        == Matching(ps, path) + if path == m.mountPath then [m] else []
  {
    hide Less;
    hide Sorted;
    var rest := Inserted(ps[1..], m);
    assert ps == [ps[0]] + ps[1..];
    assert ([ps[0]] + rest)[1..] == rest;
    forall i | 0 <= i < |rest| ensures !Less(rest[i].mountPath, ps[0].mountPath) {
      assert rest[i] in multiset(rest);
      assert rest[i] in ps[1..] || rest[i] == m;
    }
    SortedInFront(ps[0], rest);
    forall path
      ensures Matching(Inserted(ps, m), path) == Matching(ps, path) + if path == m.mountPath then [m] else []
    {
      MatchingInFront(ps[0], ps[1..], rest, path, if path == m.mountPath then [m] else []);
    }
  }

  lemma SortedInFront(m: Mount, rest: seq<Mount>)
    requires Sorted(rest) && forall i :: 0 <= i < |rest| ==> !Less(rest[i].mountPath, m.mountPath)
    ensures Sorted([m] + rest)
  {
  }

  lemma MatchingInFront(m: Mount, ps: seq<Mount>, rest: seq<Mount>, path: Bytes, last: seq<Mount>)
    requires Matching(rest, path) == Matching(ps, path) + last
    ensures Matching([m] + rest, path) == Matching([m] + ps, path) + last
  {
    assert ([m] + rest)[1..] == rest && ([m] + ps)[1..] == ps;
    assert [m] + (Matching(ps, path) + last) == [m] + Matching(ps, path) + last;
  }

  // ---------------------------------------------------------------------------
  // Resolution of a path

  predicate IsMounted(ps: seq<Mount>, cs: Path) {
    Matching(ps, PathString(cs)) != []
  }

  /** The path, then its ancestors up to the root: the first that is a mount point. */
  function SearchMount(ps: seq<Mount>, cs: Path): Option<Path>
    decreases |cs|
  {
    if IsMounted(ps, cs) then Some(cs) else if cs == [] then None else SearchMount(ps, cs[..|cs| - 1])
  }

  /** The search finds the longest prefix, component by component, that is a mount point; if there is one. */
  lemma {:induction false} SearchIsLongestPrefix(ps: seq<Mount>, cs: Path)
    ensures match SearchMount(ps, cs)
            case Some(found) => found <= cs && IsMounted(ps, found)
                                && forall n :: |found| < n <= |cs| ==> !IsMounted(ps, cs[..n])
            case None => forall n :: 0 <= n <= |cs| ==> !IsMounted(ps, cs[..n])
    decreases |cs|
  {
    assert cs[..|cs|] == cs;
    if !IsMounted(ps, cs) && cs != [] {
      var up := cs[..|cs| - 1];
      SearchIsLongestPrefix(ps, up);
      assert up <= cs;
      assert forall n :: 0 <= n <= |up| ==> up[..n] == cs[..n];
    }
  }

  /** The path asked of a mounted volume. */
  function SubPath(m: Mount, vpath: Bytes, mountPath: Bytes): Bytes {
    Simplify(m.entryPath + [SEPARATOR] + if |mountPath| <= |vpath| then vpath[|mountPath|..] else [])
  }

  /** The volume is asked for the entry's components followed by exactly the unmatched ones. */
  lemma SubPathIsEntryThenRest(m: Mount, done: Path, rest: Path)
    requires Names(done + rest) && Simplify(m.entryPath) == m.entryPath
    ensures ComponentsOf(SubPath(m, PathString(done + rest), PathString(done))) == ComponentsOf(m.entryPath) + rest
  {
    SuffixSplits(done, rest);
    var tail := PathString(done + rest)[|PathString(done)|..];
    ComponentsAreNames(m.entryPath);
    assert rest == (done + rest)[|done|..] && Names(rest);
    ComponentsAppend(ComponentsOf(m.entryPath), rest, tail);
    assert PathString(ComponentsOf(m.entryPath)) == m.entryPath;
    SimplifyIdempotent(m.entryPath + [SEPARATOR] + tail);
    ComponentsOfSimplified(m.entryPath + [SEPARATOR] + tail);
  }

  lemma ComponentsOfSimplified(s: Bytes)
    ensures ComponentsOf(Simplify(s)) == ComponentsOf(s)
  {
    ComponentsAreNames(s);
    PathStringIsSimple(ComponentsOf(s));
  }

  /** In the volume, that is the walk from the mounted entry along the unmatched components. */
  lemma MountResolves(t: Tree, m: Mount, done: Path, rest: Path)
    requires Names(done + rest) && Simplify(m.entryPath) == m.entryPath
    ensures Walk(t, ROOT_HANDLE, ComponentsOf(SubPath(m, PathString(done + rest), PathString(done))))
            == match Walk(t, ROOT_HANDLE, ComponentsOf(m.entryPath))
               case Some(entry) => Walk(t, entry, rest)
               case None => None
  {
    SubPathIsEntryThenRest(m, done, rest);
    WalkConcat(t, ROOT_HANDLE, ComponentsOf(m.entryPath), rest);
  }

  /** Two mounts of one volume at one path lead to different entries. */
  lemma MergedEntriesDiffer(t: Tree, m1: Mount, m2: Mount, done: Path, rest: Path)
    requires IsTree(t) && Names(done + rest)
    requires Simplify(m1.entryPath) == m1.entryPath && Simplify(m2.entryPath) == m2.entryPath
               && m1.entryPath != m2.entryPath
    requires var vpath, mpath := PathString(done + rest), PathString(done);
             Walk(t, ROOT_HANDLE, ComponentsOf(SubPath(m1, vpath, mpath))).Some?
    ensures var vpath, mpath := PathString(done + rest), PathString(done);
            Walk(t, ROOT_HANDLE, ComponentsOf(SubPath(m1, vpath, mpath)))
            != Walk(t, ROOT_HANDLE, ComponentsOf(SubPath(m2, vpath, mpath)))
  {
    SubPathIsEntryThenRest(m1, done, rest);
    SubPathIsEntryThenRest(m2, done, rest);
    var a, b := ComponentsOf(m1.entryPath), ComponentsOf(m2.entryPath);
    assert PathString(a) == m1.entryPath && PathString(b) == m2.entryPath;
    SameFront(a, b, rest);
    if Walk(t, ROOT_HANDLE, a + rest) == Walk(t, ROOT_HANDLE, b + rest) {
      WalkIsInjective(t, a + rest, b + rest);
    }
  }

  lemma SameFront(a: Path, b: Path, rest: Path)
    ensures a + rest == b + rest ==> a == b
  {
    if a + rest == b + rest {
      assert |a| == |b|;
      assert a == (a + rest)[..|a|] && b == (b + rest)[..|b|];
    }
  }

  // ---------------------------------------------------------------------------
  // Priority

  ghost predicate Descending(ms: seq<Mount>) {
    forall i, j :: 0 <= i < j < |ms| ==> ms[i].priority >= ms[j].priority
  }

  /** The same mounts, highest priority first; ties in any order. */
  ghost predicate PriorityOrder(sorted: seq<Mount>, ms: seq<Mount>) {
    multiset(sorted) == multiset(ms) && Descending(sorted)
  }

  lemma SlipInOrder(sorted: seq<Mount>, at: nat, m: Mount)
    requires Descending(sorted) && at <= |sorted|
    requires at > 0 ==> sorted[at - 1].priority >= m.priority
    requires forall j :: at <= j < |sorted| ==> sorted[j].priority < m.priority
    ensures Descending(sorted[..at] + [m] + sorted[at..])
  {
  }

  lemma SlipInContents(sorted: seq<Mount>, at: nat, m: Mount)
    requires at <= |sorted|
    ensures multiset(sorted[..at] + [m] + sorted[at..]) == multiset(sorted) + multiset{m}
  {
    assert sorted == sorted[..at] + sorted[at..];
  }

  /** A mount slipped in before those of lower priority. */
  lemma SlipIn(sorted: seq<Mount>, ms: seq<Mount>, at: nat, m: Mount)
    requires PriorityOrder(sorted, ms) && at <= |sorted|
    requires at > 0 ==> sorted[at - 1].priority >= m.priority
    requires forall j :: at <= j < |sorted| ==> sorted[j].priority < m.priority
    ensures PriorityOrder(sorted[..at] + [m] + sorted[at..], ms + [m])
  {
    SlipInOrder(sorted, at, m);
    SlipInContents(sorted, at, m);
    hide Descending;
  }

  /** Insertion sort from high priority to low. */
  method SortByPriority(ms: seq<Mount>) returns (sorted: seq<Mount>)
    ensures PriorityOrder(sorted, ms)
  {
    hide PriorityOrder;
    sorted := [];
    assert PriorityOrder(sorted, ms[..0]) by { NothingToSort(); assert ms[..0] == []; }
    for i := 0 to |ms|
      invariant PriorityOrder(sorted, ms[..i])
    {
      var at := |sorted|;
      while at > 0 && sorted[at - 1].priority < ms[i].priority
        invariant 0 <= at <= |sorted|
        invariant forall j :: at <= j < |sorted| ==> sorted[j].priority < ms[i].priority
      {
        at := at - 1;
      }
      SlipIn(sorted, ms[..i], at, ms[i]);
      assert ms[..i + 1] == ms[..i] + [ms[i]];
      sorted := sorted[..at] + [ms[i]] + sorted[at..];
    }
    assert ms[..|ms|] == ms;
  }

  lemma NothingToSort()
    ensures PriorityOrder([], [])
  {
  }
}
