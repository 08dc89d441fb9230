// A volume as a value: open entries over the engine, and a cache of paths
// (lib/ondisk/Volume_p.hpp, lib/ondisk/Entry.cpp). The engine appears as the map it refines.

module Volumes {
  import opened Wrappers
  import opened Serialization
  import opened Properties
  import opened Records
  import opened Engines
  import opened EngineRuns
  import opened Paths
  import opened MRUCaches

  const PATH_CACHE_SIZE: nat := 1024

  /** An open entry: its record in memory, and whether it differs from the stored one. */
  datatype Entry = Entry(rec: Rec, dirty: bool)

  datatype Volume = Volume(disk: Spec, entries: map<nat, Entry>, cache: Cache<Bytes, nat>)

  type Tree = map<nat, Rec>

  /** The tree a volume shows: the open record if there is one, else the stored record. */
  function View(v: Volume): Tree {
    map h | h in v.disk.m :: if h in v.entries then v.entries[h].rec else v.disk.m[h]
  }

  // ---------------------------------------------------------------------------
  // Engine calls, in terms of the map

  function Stored(s: Spec, r: Rec, now: int): Spec {
    SpecStep(s, SaveOp(r, now, NO_ORDERS)).1
  }

  function Dropped(s: Spec, h: nat): Spec {
    SpecStep(s, RemoveOp(h)).1
  }

  // ---------------------------------------------------------------------------
  // Opening and releasing entries

  /** An open entry is shared; otherwise the record is loaded, if the handle is stored at all. */
  function OpenHandle(v: Volume, h: nat, now: int): (Option<nat>, Volume) {
    if h in v.entries then (Some(h), v)
    else if h in v.disk.m then (Some(h), v.(entries := v.entries[h := Entry(Cleanup(v.disk.m[h], now), false)]))
    else (None, v)
  }

  /** The last reference to an entry is gone: it leaves the table and, when dirty, is saved. */
  function Release(v: Volume, h: nat, now: int): Volume {
    if h !in v.entries then v
    else
      var e := v.entries[h];
      var v1 := v.(entries := v.entries - {h});
      if e.dirty then v1.(disk := Stored(v1.disk, e.rec, now)) else v1
  }

  /** Every dirty open record is saved. */
  function Flushed(v: Volume, now: int): Spec {
    v.disk.(m := v.disk.m + map h | h in v.entries && v.entries[h].dirty :: Cleanup(v.entries[h].rec, now))
  }

  /** deinitialize, then initialize. */
  function Reinitialize(v: Volume, now: int): Volume {
    Volume(Flushed(v, now), map[], [])
  }

  // Neither looks at the engine's answer to a save. What is left when some saves fail:

  function ReleaseAnswered(v: Volume, h: nat, accepted: bool, now: int): Volume {
    if accepted then Release(v, h, now) else v.(entries := v.entries - {h})
  }

  /** Of the dirty open records those in `accepted` are saved. */
  function FlushedOf(v: Volume, accepted: set<nat>, now: int): Spec {
    v.disk.(m := v.disk.m
                 + map h | h in v.entries && h in accepted && v.entries[h].dirty :: Cleanup(v.entries[h].rec, now))
  }

  function ReinitializeAnswered(v: Volume, accepted: set<nat>, now: int): Volume {
    Volume(FlushedOf(v, accepted, now), map[], [])
  }

  // ---------------------------------------------------------------------------
  // Mutations of an open entry

  datatype Mutation =
    | SetP(prop: Bytes, value: Property)
    | RemoveP(prop: Bytes)
    | ExpireP(prop: Bytes, ms: int)
    | CancelP(prop: Bytes)

  function Mutated(r: Rec, m: Mutation, now: int): Rec {
    match m
    case SetP(p, value) => SetProp(r, p, value)
    case RemoveP(p) => RemoveProp(r, p)
    case ExpireP(p, ms) => ExpireProp(r, p, now, ms)
    case CancelP(p) => CancelExpiry(r, p)
  }

  function MutationStatus(r: Rec, m: Mutation, now: int): Status {
    match m
    case RemoveP(p) => if p in r.props then Ok else NotFound
    case ExpireP(p, _) => if HasProp(r, p, now) then Ok else NotFound
    case _ => Ok
  }

  /** The dirty flag is raised when the mutation succeeds. */
  function Mutate(v: Volume, h: nat, m: Mutation, now: int): Volume
    requires h in v.entries
  {
    var e := v.entries[h];
    v.(entries := v.entries[h := Entry(Mutated(e.rec, m, now), e.dirty || MutationStatus(e.rec, m, now).Ok?)])
  }

  /** A mutation shows in no property but its own, at no time. */
  lemma MutationLeavesOthers(r: Rec, m: Mutation, now: int, q: Bytes, later: int)
    requires q != m.prop
    ensures GetProp(Mutated(r, m, now), q, later) == GetProp(r, q, later)
  {
    match m {
      case SetP(p, value) => ReadsAfterSet(r, p, value, q, later);
      case RemoveP(p) => ReadsAfterRemove(r, p, q, later);
      case ExpireP(p, ms) => ReadsAfterExpire(r, p, now, ms, q, later);
      case CancelP(p) => ReadsAfterCancel(r, p, q, later);
    }
  }

  /** What a mutation makes of its own property, at any later time. */
  lemma MutationSets(r: Rec, m: Mutation, now: int, later: int)
    ensures GetProp(Mutated(r, m, now), m.prop, later)
            == match m
               case SetP(_, value) => Some(value)
               case RemoveP(_) => None
               case ExpireP(p, ms) =>
                 if HasProp(r, p, now) then (if later < now + ms then Some(r.props[p]) else None)
                 else GetProp(r, p, later)
               case CancelP(p) => if p in r.props then Some(r.props[p]) else None
  {
    match m {
      case SetP(p, value) => ReadsAfterSet(r, p, value, p, later);
      case RemoveP(p) => ReadsAfterRemove(r, p, p, later);
      case ExpireP(p, ms) => ReadsAfterExpire(r, p, now, ms, p, later);
      case CancelP(p) => ReadsAfterCancel(r, p, p, later);
    }
  }

  // ---------------------------------------------------------------------------
  // Links

  predicate ValidName(name: Bytes) {
    name != [] && SEPARATOR !in name
  }

  /** `saved` is the engine's answer to saving the child. The parent is saved when released. */
  function Link(v: Volume, h: nat, name: Bytes, saved: bool, now: int): (Status, Volume) {
    if !ValidName(name) then (InvalidArgument, v)
    else if h !in v.entries then (InvalidArgument, v)
    else if name in v.entries[h].rec.children then (InvalidArgument, v)
    else
      var parent, key := v.entries[h].rec, v.disk.counter;
      var v1 := v.(disk := v.disk.(counter := v.disk.counter + 1));
      if !CanAdd(parent.children, name, key) then (InvalidArgument, v1)
      else
        var child := NewRec(key, name).(parent := parent.key);
        if !saved then
          var undone := parent.(children := WithoutHandle(parent.children[name := key], key));
          (IOError, v1.(entries := v1.entries[h := Entry(undone, v.entries[h].dirty)]))
        else
          (Ok, v1.(disk := Stored(v1.disk, child, now),
                   entries := v1.entries[h := Entry(parent.(children := parent.children[name := key]), true)]))
  }

  /** Only a closed, childless entry can be unlinked. */
  function Unlink(v: Volume, h: nat, name: Bytes): (Status, Volume) {
    if h !in v.entries then (InvalidArgument, v)
    else if name !in v.entries[h].rec.children then (InvalidArgument, v)
    else
      var parent := v.entries[h].rec;
      var c := parent.children[name];
      if c in v.entries then (InvalidOperation, v)
      else if c !in v.disk.m then (InvalidArgument, v)
      else if v.disk.m[c].children != map[] then (InvalidArgument, v)
      else
        (Ok, v.(disk := Dropped(v.disk, c),
                entries := v.entries[h := Entry(parent.(children := WithoutHandle(parent.children, c)), true)]))
  }

  // ---------------------------------------------------------------------------
  // Finding an entry by path

  /** The longest cached prefix of a path, and the cache after the lookup that hit. */
  function SearchCached(cache: Cache<Bytes, nat>, cs: Path): (Option<(nat, Path)>, Cache<Bytes, nat>)
    decreases |cs|
  {
    match Found(cache, PathString(cs))
    case Some(h) => (Some((h, cs)), Touch(cache, PathString(cs)))
    case None => if cs == [] then (None, cache) else SearchCached(cache, cs[..|cs| - 1])
  }

  /** What the walk reads: the children of the open record, else of the stored one. */
  function ChildrenOf(v: Volume, h: nat): Option<map<Bytes, nat>> {
    if h in v.entries then Some(v.entries[h].rec.children)
    else if h in v.disk.m then Some(v.disk.m[h].children)
    else None
  }

  /** Walks down from `h`, caching each path it passes under `track`. */
  function WalkDown(v: Volume, h: nat, tokens: Path, track: Bytes): (Option<nat>, Volume)
    decreases |tokens|
  {
    if tokens == [] then (Some(h), v)
    else match ChildrenOf(v, h)
      case None => (None, v)
      case Some(children) =>
        if tokens[0] !in children then (None, v)
        else
          var track1 := track + ([SEPARATOR] + tokens[0]);
          WalkDown(v.(cache := Inserted(v.cache, track1, children[tokens[0]], PATH_CACHE_SIZE)),
                   children[tokens[0]], tokens[1..], track1)
  }

  /** entry(), on the components of the simplified path, up to opening the handle found. */
  function FindHandle(v: Volume, cs: Path): (Option<nat>, Volume) {
    var (hit, cache) := SearchCached(v.cache, cs);
    match hit
    case Some(hf) =>
      if |hf.1| > |cs| then (None, v) else
      WalkDown(v.(cache := cache), hf.0, cs[|hf.1|..], PathString(hf.1))
    case None =>
      WalkDown(v.(cache := Inserted(cache, [SEPARATOR], ROOT_HANDLE, PATH_CACHE_SIZE)), ROOT_HANDLE, cs, [])
  }

  function FindEntry(v: Volume, path: Bytes, now: int): (Option<nat>, Volume) {
    var (found, v1) := FindHandle(v, ComponentsOf(path));
    match found
    case None => (None, v1)
    case Some(h) => OpenHandle(v1, h, now)
  }

  lemma FindUnfolds(v: Volume, path: Bytes, now: int)
    ensures var (found, v1) := FindHandle(v, ComponentsOf(path));
            FindEntry(v, path, now) == if found.None? then (None, v1) else OpenHandle(v1, found.value, now)
  {
  }

  // ---------------------------------------------------------------------------
  // The tree and the plain walk

  function Walk(t: Tree, h: nat, cs: Path): Option<nat>
    decreases |cs|
  {
    if cs == [] then Some(h)
    else if h in t && cs[0] in t[h].children then Walk(t, t[h].children[cs[0]], cs[1..])
    else None
  }

  ghost predicate IsTree(t: Tree) {
    && ROOT_HANDLE in t && t[ROOT_HANDLE].parent == INVALID_HANDLE
    && (forall h <- t :: t[h].key == h && Bijective(t[h].children))
    && (forall h, n :: h in t && n in t[h].children ==> IsChild(t, h, n, t[h].children[n]))
    && (forall h <- t :: h != ROOT_HANDLE ==>
          t[h].parent in t && t[h].name in t[t[h].parent].children && t[t[h].parent].children[t[h].name] == h)
  }

  predicate IsChild(t: Tree, h: nat, n: Bytes, c: nat) {
    c in t && t[c].parent == h && t[c].name == n && h < c
  }

  /** The part of a record that links and walks look at. */
  function Skeleton(r: Rec): Rec {
    r.(props := map[], expiry := map[])
  }

  predicate SameShape(t: Tree, u: Tree) {
    t.Keys == u.Keys && forall h <- t :: Skeleton(t[h]) == Skeleton(u[h])
  }

  lemma ShapeIsTree(t: Tree, u: Tree)
    requires SameShape(t, u) && IsTree(t)
    ensures IsTree(u)
  {
  }

  lemma {:induction false} ShapeWalk(t: Tree, u: Tree, h: nat, cs: Path)
    requires SameShape(t, u)
    ensures Walk(t, h, cs) == Walk(u, h, cs)
    decreases |cs|
  {
    if cs != [] && h in t {
      assert Skeleton(t[h]) == Skeleton(u[h]);
      if cs[0] in t[h].children {
        ShapeWalk(t, u, t[h].children[cs[0]], cs[1..]);
      }
    }
  }

  lemma {:induction false} WalkConcat(t: Tree, h: nat, a: Path, b: Path)
    ensures Walk(t, h, a + b) == match Walk(t, h, a) case Some(x) => Walk(t, x, b) case None => None
    decreases |a|
  {
    if a == [] {
      assert a + b == b;
    } else {
      assert (a + b)[1..] == a[1..] + b;
      if h in t && a[0] in t[h].children {
        WalkConcat(t, t[h].children[a[0]], a[1..], b);
      }
    }
  }

  /** A walk in a tree stays in the tree and goes to larger handles. */
  lemma {:induction false} WalkStaysIn(t: Tree, h: nat, cs: Path)
    requires IsTree(t) && h in t
    ensures Walk(t, h, cs).Some? ==>
              && Walk(t, h, cs).value in t
              && (if cs == [] then Walk(t, h, cs).value == h else h < Walk(t, h, cs).value)
    decreases |cs|
  {
    if cs != [] && cs[0] in t[h].children {
      assert IsChild(t, h, cs[0], t[h].children[cs[0]]);
      WalkStaysIn(t, t[h].children[cs[0]], cs[1..]);
    }
  }

  /** The path the parent fields spell out. */
  ghost function PathTo(t: Tree, h: nat): Path
    requires IsTree(t) && h in t
    decreases h
  {
    if h == ROOT_HANDLE then []
    else
      assert IsChild(t, t[h].parent, t[h].name, h);
      PathTo(t, t[h].parent) + [t[h].name]
  }

  /** Every live handle is reached from the root by a walk, along its parents. */
  lemma {:induction false} EveryHandleReached(t: Tree, h: nat)
    requires IsTree(t) && h in t
    ensures Walk(t, ROOT_HANDLE, PathTo(t, h)) == Some(h)
    decreases h
  {
    if h != ROOT_HANDLE {
      var p, n := t[h].parent, t[h].name;
      assert IsChild(t, p, n, h);
      EveryHandleReached(t, p);
      WalkConcat(t, ROOT_HANDLE, PathTo(t, p), [n]);
      assert Walk(t, p, [n]) == Walk(t, h, [n][1..]);
    }
  }

  /** Every live handle but the root is listed once, by its parent and under its name; the root never. */
  lemma ListedOnce(t: Tree, h: nat, p: nat, n: Bytes)
    requires IsTree(t) && h in t && p in t
    ensures n in t[p].children && t[p].children[n] == h <==> h != ROOT_HANDLE && p == t[h].parent && n == t[h].name
  {
  }

  lemma OneStep(t: Tree, h: nat, n: Bytes)
    ensures Walk(t, h, [n]) == if h in t && n in t[h].children then Some(t[h].children[n]) else None
  {
  }

  /** The last step of a walk from the root comes from the parent, by name. */
  lemma LastStep(t: Tree, a: Path)
    requires IsTree(t) && a != [] && Walk(t, ROOT_HANDLE, a).Some?
    ensures var h := Walk(t, ROOT_HANDLE, a).value;
            h in t && Walk(t, ROOT_HANDLE, a[..|a| - 1]) == Some(t[h].parent) && a[|a| - 1] == t[h].name
  {
    var x, n := a[..|a| - 1], a[|a| - 1];
    assert a == x + [n];
    WalkConcat(t, ROOT_HANDLE, x, [n]);
    hide Walk;
    var p := Walk(t, ROOT_HANDLE, x).value;
    OneStep(t, p, n);
    assert IsChild(t, p, n, t[p].children[n]);
  }

  /** Different paths lead to different handles. */
  lemma {:induction false} WalkIsInjective(t: Tree, a: Path, b: Path)
    requires IsTree(t) && Walk(t, ROOT_HANDLE, a).Some? && Walk(t, ROOT_HANDLE, a) == Walk(t, ROOT_HANDLE, b)
    ensures a == b
    decreases |a|
  {
    assert ROOT_HANDLE in t;
    WalkStaysIn(t, ROOT_HANDLE, a);
    WalkStaysIn(t, ROOT_HANDLE, b);
    hide IsTree;
    hide Walk;
    if a != [] && b != [] {
      var x, y := a[..|a| - 1], b[..|b| - 1];
      LastStep(t, a);
      LastStep(t, b);
      WalkIsInjective(t, x, y);
      assert a == x + [a[|a| - 1]] && b == y + [b[|b| - 1]];
    }
  }
}
