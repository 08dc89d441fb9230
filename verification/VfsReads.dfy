// A merged entry, from the path to what is read of it: the mounts at the longest mounted prefix
// are asked in any order, and the properties are those of the plain trees the volumes show
// (lib/vfs/Storage_p.hpp:126-183, lib/vfs/VirtualEntry.cpp).

module VfsReads {
  import opened Wrappers
  import opened Serialization
  import opened Records
  import opened Paths
  import opened Volumes
  import opened PathCaches
  import V = VolumeRuns
  import opened VolumeRefinement
  import opened Mounts
  import opened VfsStorages
  import opened VirtualEntries

  /** A volume and the plain tree it shows. */
  datatype Shown = Shown(v: Volume, t: Model)

  /** The volumes in use. */
  type Shelf = map<nat, Shown>

  ghost predicate AllRefine(vs: Shelf, now: int) {
    forall k <- vs :: V.Refines(vs[k].v, vs[k].t, now)
  }

  /** No volume has a path in its cache that stands for a handle that is gone. */
  ghost predicate AllLive(vs: Shelf) {
    forall k <- vs :: LiveCache(vs[k].v.cache, View(vs[k].v))
  }

  // ---------------------------------------------------------------------------
  // Asking the volumes

  /** One volume is asked for a path; the entry it gives is then held. */
  ghost function Ask(vs: Shelf, volume: nat, path: Bytes, now: int): (Option<nat>, Shelf)
    requires volume in vs
  {
    var x := vs[volume];
    var (found, w) := FindEntry(x.v, path, now);
    (found, vs[volume := Shown(w, if found.Some? then x.t.(held := x.t.held + {found.value}) else x.t)])
  }

  ghost predicate Askable(vs: Shelf, plan: seq<(nat, Bytes)>, schedule: seq<nat>) {
    && (forall i :: 0 <= i < |plan| ==> plan[i].0 in vs)
    && (forall k :: 0 <= k < |schedule| ==> schedule[k] < |plan|)
  }

  /** The answers, each in its own future, and the volumes once the calls of `schedule` have run. */
  ghost function AskAll(vs: Shelf, plan: seq<(nat, Bytes)>, schedule: seq<nat>,
      now: int): (r: (seq<Option<nat>>, Shelf))
    requires Askable(vs, plan, schedule)
    ensures |r.0| == |plan| && r.1.Keys == vs.Keys
    decreases |schedule|
  {
    if schedule == [] then (seq(|plan|, _ => None), vs)
    else
      var last := |schedule| - 1;
      var (found, vs1) := AskAll(vs, plan, schedule[..last], now);
      var i := schedule[last];
      var (answer, vs2) := Ask(vs1, plan[i].0, plan[i].1, now);
      (found[i := answer], vs2)
  }

  /** The trees are the same; entries held stay held. */
  predicate Kept(vs: Shelf, vs1: Shelf) {
    vs1.Keys == vs.Keys && forall k <- vs :: vs1[k].t.tree == vs[k].t.tree && vs[k].t.held <= vs1[k].t.held
  }

  /** What the plain tree has at a path. */
  function Wanted(vs: Shelf, volume: nat, path: Bytes): Option<nat>
    requires volume in vs
  {
    Walk(vs[volume].t.tree, ROOT_HANDLE, ComponentsOf(path))
  }

  /** An answer is right when it is nothing, or what the plain tree has, held open. */
  predicate Right(vs: Shelf, vs1: Shelf, volume: nat, path: Bytes, found: Option<nat>)
    requires volume in vs && volume in vs1
  {
    found.Some? ==> found == Wanted(vs, volume, path) && found.value in vs1[volume].t.held
  }

  lemma AskKeeps(vs: Shelf, volume: nat, path: Bytes, now: int)
    requires volume in vs && AllRefine(vs, now)
    ensures var (found, vs1) := Ask(vs, volume, path, now);
            && AllRefine(vs1, now) && Kept(vs, vs1) && Right(vs, vs1, volume, path, found)
            && (AllLive(vs) ==> AllLive(vs1) && found == Wanted(vs, volume, path))
  {
    hide *;
    var x := vs[volume];
    AskIs(vs, volume, path, now);
    RefinesAt(vs, volume, now);
    FindRefines(x.v, x.t, path, now);
    FoundUnfolds(x.t, path, Stale(x.v, ComponentsOf(path)));
    var (found, vs1) := Ask(vs, volume, path, now);
    WantedIs(vs, volume, path);
    Replaced(vs, volume, vs1[volume], now);
    RightIs(vs, vs1, volume, path, found);
    if AllLive(vs) {
      LiveAt(vs, volume);
      StaysLive(x.v, x.t, path, now);
      ReplacedLive(vs, volume, vs1[volume]);
    }
  }

  lemma AskIs(vs: Shelf, volume: nat, path: Bytes, now: int)
    requires volume in vs
    ensures var x := vs[volume];
            var (found, w) := FindEntry(x.v, path, now);
            Ask(vs, volume, path, now)
            == (found, vs[volume := Shown(w, if found.Some? then x.t.(held := x.t.held + {found.value}) else x.t)])
  {
    hide FindEntry;
  }

  lemma RefinesAt(vs: Shelf, volume: nat, now: int)
    requires volume in vs && AllRefine(vs, now)
    ensures V.Refines(vs[volume].v, vs[volume].t, now)
  {
    hide V.Refines;
  }

  lemma LiveAt(vs: Shelf, volume: nat)
    requires volume in vs && AllLive(vs)
    ensures LiveCache(vs[volume].v.cache, View(vs[volume].v))
  {
    hide LiveCache;
  }

  lemma FoundUnfolds(t: Model, path: Bytes, stale: bool)
    ensures ModelFind(t, path, stale) == if stale then None else Walk(t.tree, ROOT_HANDLE, ComponentsOf(path))
  {
  }

  lemma WantedIs(vs: Shelf, volume: nat, path: Bytes)
    requires volume in vs
    ensures Wanted(vs, volume, path) == Walk(vs[volume].t.tree, ROOT_HANDLE, ComponentsOf(path))
  {
  }

  lemma RightIs(vs: Shelf, vs1: Shelf, volume: nat, path: Bytes, found: Option<nat>)
    requires volume in vs && volume in vs1
    ensures Right(vs, vs1, volume, path, found)
            <==> found.Some? ==> found == Wanted(vs, volume, path) && found.value in vs1[volume].t.held
  {
    hide Wanted;
  }

  /** One volume has moved on, and still shows the same tree. */
  lemma Replaced(vs: Shelf, volume: nat, x: Shown, now: int)
    requires volume in vs && AllRefine(vs, now) && V.Refines(x.v, x.t, now)
    requires x.t.tree == vs[volume].t.tree && vs[volume].t.held <= x.t.held
    ensures AllRefine(vs[volume := x], now) && Kept(vs, vs[volume := x])
  {
    hide V.Refines;
  }

  lemma ReplacedLive(vs: Shelf, volume: nat, x: Shown)
    requires volume in vs && AllLive(vs) && LiveCache(x.v.cache, View(x.v))
    ensures AllLive(vs[volume := x])
  {
    hide LiveCache;
  }

  lemma StaysLive(v: Volume, t: Model, path: Bytes, now: int)
    requires V.Refines(v, t, now) && LiveCache(v.cache, View(v))
    ensures !Stale(v, ComponentsOf(path))
    ensures LiveCache(FindEntry(v, path, now).1.cache, View(FindEntry(v, path, now).1))
  {
    hide *;
    var cs := ComponentsOf(path);
    RefinesGives(v, t, now);
    FindLive(v, cs);
    FindRefines(v, t, path, now);
    FindUnfolds(v, path, now);
    var (found, v1) := FindHandle(v, cs);
    var w := FindEntry(v, path, now).1;
    SameViewKeys(v, v1);
    if found.Some? {
      V.OpenHandleIs(v1, found.value, now);
    }
    SameViewKeys(v, w);
    LiveLater(w.cache, View(v), View(w));
  }

  lemma SameViewKeys(v: Volume, w: Volume)
    requires v.disk == w.disk
    ensures View(v).Keys == View(w).Keys
  {
  }

  lemma KeptStaysRight(vs: Shelf, vs1: Shelf, vs2: Shelf, volume: nat, path: Bytes, found: Option<nat>)
    requires volume in vs && Kept(vs, vs1) && Kept(vs1, vs2)
    ensures Kept(vs, vs2) && Wanted(vs1, volume, path) == Wanted(vs, volume, path)
    ensures Right(vs, vs1, volume, path, found) ==> Right(vs, vs2, volume, path, found)
    ensures Right(vs1, vs2, volume, path, found) ==> Right(vs, vs2, volume, path, found)
  {
    hide Walk;
    hide ComponentsOf;
  }

  /** The `i`-th answer is right, and is what the tree has when no cached path is stale. */
  predicate RightAt(vs: Shelf, vs1: Shelf, live: bool, plan: seq<(nat, Bytes)>, found: seq<Option<nat>>, i: nat)
    requires i < |plan| == |found| && plan[i].0 in vs && plan[i].0 in vs1
  {
    Right(vs, vs1, plan[i].0, plan[i].1, found[i]) && (live ==> found[i] == Wanted(vs, plan[i].0, plan[i].1))
  }

  /** Whatever the schedule, every answer is right, the volumes refine their trees and the trees are as before. */
  lemma {:induction false} AskAllKeeps(vs: Shelf, plan: seq<(nat, Bytes)>, schedule: seq<nat>, now: int)
    requires Askable(vs, plan, schedule) && AllRefine(vs, now)
    ensures var (found, vs1) := AskAll(vs, plan, schedule, now);
            && AllRefine(vs1, now) && Kept(vs, vs1) && (AllLive(vs) ==> AllLive(vs1))
            && forall i: nat :: i < |plan| && i in schedule ==> RightAt(vs, vs1, AllLive(vs), plan, found, i)
    decreases |schedule|
  {
    hide AllRefine;
    hide AllLive;
    hide Right;
    hide Wanted;
    hide Ask;
    if schedule != [] {
      var last := |schedule| - 1;
      AskAllKeeps(vs, plan, schedule[..last], now);
      var (found, vs1) := AskAll(vs, plan, schedule[..last], now);
      var x := schedule[last];
      var (answer, vs2) := Ask(vs1, plan[x].0, plan[x].1, now);
      AskKeeps(vs1, plan[x].0, plan[x].1, now);
      assert schedule == schedule[..last] + [x];
      forall i: nat | i < |plan| && i in schedule ensures RightAt(vs, vs2, AllLive(vs), plan, found[x := answer], i) {
        KeptStaysRight(vs, vs1, vs2, plan[i].0, plan[i].1, found[x := answer][i]);
      }
      KeptStaysRight(vs, vs1, vs2, plan[x].0, plan[x].1, answer);
    }
  }

  // ---------------------------------------------------------------------------
  // What is read

  ghost predicate AllFound(vs1: Shelf, order: seq<Mount>, found: seq<Option<nat>>) {
    && |found| == |order|
    && forall i :: 0 <= i < |order| ==>
         order[i].volume in vs1 && found[i].Some? && found[i].value in vs1[order[i].volume].v.entries
         && found[i].value in vs1[order[i].volume].t.tree
  }

  /** The open records behind the merged entry, highest priority first. */
  ghost function OpenRecs(vs1: Shelf, order: seq<Mount>, found: seq<Option<nat>>): (rs: seq<Rec>)
    requires AllFound(vs1, order, found)
    ensures |rs| == |order|
    ensures forall i :: 0 <= i < |rs| ==> rs[i] == vs1[order[i].volume].v.entries[found[i].value].rec
  {
    seq(|order|, i requires 0 <= i < |order| => vs1[order[i].volume].v.entries[found[i].value].rec)
  }

  /** The records that the plain trees hold under those handles. */
  ghost function TreeRecs(vs1: Shelf, order: seq<Mount>, found: seq<Option<nat>>): (rs: seq<Rec>)
    requires AllFound(vs1, order, found)
    ensures |rs| == |order|
    ensures forall i :: 0 <= i < |rs| ==> rs[i] == vs1[order[i].volume].t.tree[found[i].value]
  {
    seq(|order|, i requires 0 <= i < |order| => vs1[order[i].volume].t.tree[found[i].value])
  }

  lemma OpenReads(v: Volume, t: Model, h: nat, p: Bytes, now: int, later: int)
    requires V.Refines(v, t, now) && now <= later && h in v.entries && h in t.tree
    ensures GetProp(v.entries[h].rec, p, later) == GetProp(t.tree[h], p, later)
  {
    hide *;
    V.RefinesLater(v, t, now, later);
    ReadRefines(v, t, h, p, later);
  }

  lemma SameReadAt(vs1: Shelf, order: seq<Mount>, found: seq<Option<nat>>, i: nat, p: Bytes, now: int, later: int)
    requires AllFound(vs1, order, found) && AllRefine(vs1, now) && now <= later && i < |order|
    ensures GetProp(OpenRecs(vs1, order, found)[i], p, later) == GetProp(TreeRecs(vs1, order, found)[i], p, later)
  {
    hide V.Refines;
    hide GetProp;
    var x := vs1[order[i].volume];
    RefinesAt(vs1, order[i].volume, now);
    OpenReads(x.v, x.t, found[i].value, p, now, later);
  }

  /** The union over the open records is that over the records of the trees. */
  lemma SameUnion(vs1: Shelf, order: seq<Mount>, found: seq<Option<nat>>, now: int, later: int)
    requires AllFound(vs1, order, found) && AllRefine(vs1, now) && now <= later
    ensures Union(OpenRecs(vs1, order, found), later) == Union(TreeRecs(vs1, order, found), later)
  {
    var a, b := OpenRecs(vs1, order, found), TreeRecs(vs1, order, found);
    hide *;
    forall p: Bytes
      ensures p in Union(a, later) <==> p in Union(b, later)
      ensures p in Union(a, later) ==> Union(a, later)[p] == Union(b, later)[p]
    {
      forall i | 0 <= i < |a| ensures GetProp(a[i], p, later) == GetProp(b[i], p, later) {
        SameReadAt(vs1, order, found, i, p, now, later);
      }
      SameVisible(a, b, p, later, later);
    }
    assert Union(a, later) == Union(b, later);
  }

  /** Of the entries that have a property, one mounted with higher priority than all others decides. */
  lemma HighestPriorityWins(order: seq<Mount>, recs: seq<Rec>, p: Bytes, now: int, i: nat)
    requires Descending(order) && |recs| == |order| && i < |order| && HasProp(recs[i], p, now)
    requires forall j :: 0 <= j < |order| && j != i && HasProp(recs[j], p, now) ==>
               order[j].priority < order[i].priority
    ensures p in Union(recs, now) && Union(recs, now)[p] == recs[i].props[p]
  {
    UnionHas(recs, p, now);
    forall j | 0 <= j < i ensures !HasProp(recs[j], p, now) {
      assert order[j].priority >= order[i].priority;
    }
  }

  // ---------------------------------------------------------------------------
  // The mounts asked

  lemma AskedMounts(points: seq<Mount>, order: seq<Mount>, mountPath: Bytes)
    requires PriorityOrder(order, Matching(points, mountPath))
    ensures forall i :: 0 <= i < |order| ==> order[i] in points && order[i].mountPath == mountPath
  {
    OrderMembers(order, Matching(points, mountPath), points, mountPath);
    MatchingMembers(points, mountPath);
    forall i | 0 <= i < |order| ensures order[i] in Matching(points, mountPath) {
      assert order[i] in multiset(order);
    }
  }

  lemma HeadOnce(points: seq<Mount>, mountPath: Bytes)
    requires Unique(points) && points != []
    ensures points[0] !in Matching(points[1..], mountPath)
  {
    var more := points[1..];
    MatchingMembers(more, mountPath);
    forall j | 0 <= j < |more| ensures more[j] != points[0] {
      assert more[j] == points[j + 1];
      assert !IsAt(points[j + 1], points[0].volume, points[0].entryPath, points[0].mountPath);
    }
  }

  lemma {:induction false} OnceEach(points: seq<Mount>, mountPath: Bytes, m: Mount)
    requires Unique(points)
    ensures multiset(Matching(points, mountPath))[m] <= 1
  {
    if points != [] {
      var more := points[1..];
      assert forall i :: 0 <= i < |more| ==> more[i] == points[i + 1];
      OnceEach(more, mountPath, m);
      HeadOnce(points, mountPath);
    }
  }

  lemma CountTwice(ms: seq<Mount>, i: nat, j: nat)
    requires i < j < |ms|
    ensures ms[i] == ms[j] ==> multiset(ms)[ms[i]] >= 2
  {
    assert ms == ms[..j] + [ms[j]] + ms[j + 1..];
    assert ms[i] == ms[..j][i];
  }

  /** No two mounts at one path are of one volume by one entry path. */
  lemma AskedDiffer(points: seq<Mount>, order: seq<Mount>, mountPath: Bytes, i: nat, j: nat)
    requires Unique(points) && PriorityOrder(order, Matching(points, mountPath)) && i < j < |order|
    ensures order[i].volume != order[j].volume || order[i].entryPath != order[j].entryPath
  {
    AskedMounts(points, order, mountPath);
    OnceEach(points, mountPath, order[i]);
    CountTwice(order, i, j);
    var a :| 0 <= a < |points| && points[a] == order[i];
    var b :| 0 <= b < |points| && points[b] == order[j];
    assert a != b;
    PairDiffers(points, a, b);
  }

  lemma PairDiffers(points: seq<Mount>, a: nat, b: nat)
    requires Unique(points) && a < |points| && b < |points| && a != b
    ensures !IsAt(points[b], points[a].volume, points[a].entryPath, points[a].mountPath)
  {
    if b < a {
      assert !IsAt(points[a], points[b].volume, points[b].entryPath, points[b].mountPath);
    }
  }

  /** The longest mounted prefix of a path, and what is left of the path behind it. */
  ghost predicate SplitsAt(points: seq<Mount>, path: Bytes, done: Path, rest: Path) {
    SearchMount(points, ComponentsOf(path)) == Some(done) && ComponentsOf(path) == done + rest
  }

  ghost predicate AllMounted(vs: Shelf, points: seq<Mount>) {
    forall m <- points :: m.volume in vs
  }

  lemma AskedPlan(points: seq<Mount>, path: Bytes, done: Path, rest: Path, order: seq<Mount>, i: nat)
    requires TableOk(points) && SplitsAt(points, path, done, rest)
    requires PriorityOrder(order, Matching(points, PathString(done))) && i < |order|
    ensures var plan := Asked(order, Simplify(path), PathString(done));
            plan[i].0 == order[i].volume && ComponentsOf(plan[i].1) == ComponentsOf(order[i].entryPath) + rest
  {
    AskedMounts(points, order, PathString(done));
    ComponentsAreNames(path);
    hide PriorityOrder;
    hide ComponentsOf;
    hide Simplify;
    assert Simplify(order[i].entryPath) == order[i].entryPath;
    SimplifyIsString(path);
    SubPathIsEntryThenRest(order[i], done, rest);
  }

  lemma SimplifyIsString(path: Bytes)
    ensures Simplify(path) == PathString(ComponentsOf(path))
  {
  }

  /**
   * The answer for a mount is nothing or the walk, in the plain tree of its volume, along the
   * components of the mounted entry and then those behind the mounted prefix; when no cached
   * path is stale it is that walk.
   */
  predicate Resolves(vs: Shelf, m: Mount, rest: Path, found: Option<nat>, live: bool)
    requires m.volume in vs
  {
    var walk := Walk(vs[m.volume].t.tree, ROOT_HANDLE, ComponentsOf(m.entryPath) + rest);
    (found.Some? ==> found == walk) && (live ==> found == walk)
  }

  lemma PlanAskable(vs: Shelf, points: seq<Mount>, vpath: Bytes, mountPath: Bytes, order: seq<Mount>,
      schedule: seq<nat>)
    requires AllMounted(vs, points) && PriorityOrder(order, Matching(points, mountPath))
    requires IsSchedule(schedule, |order|)
    ensures Askable(vs, Asked(order, vpath, mountPath), schedule)
    ensures forall i :: 0 <= i < |order| ==> order[i].volume in vs
    ensures forall i: nat :: i < |order| ==> i in schedule
  {
    AskedMounts(points, order, mountPath);
    hide PriorityOrder;
    hide SubPath;
  }

  lemma AnswerResolves(vs: Shelf, vs1: Shelf, m: Mount, path: Bytes, rest: Path, found: Option<nat>, live: bool,
      now: int)
    requires m.volume in vs && Kept(vs, vs1) && AllRefine(vs1, now) && m.volume in vs1
    requires Right(vs, vs1, m.volume, path, found) && (live ==> found == Wanted(vs, m.volume, path))
    requires ComponentsOf(path) == ComponentsOf(m.entryPath) + rest
    ensures Resolves(vs, m, rest, found, live)
    ensures found.Some? ==> found.value in vs1[m.volume].v.entries && found.value in vs1[m.volume].t.tree
  {
    hide V.Refines;
    hide ComponentsOf;
    hide Walk;
    RefinesGives(vs1[m.volume].v, vs1[m.volume].t, now);
  }

  /** Mounts of one volume at one path resolve to different entries of it. */
  lemma ResolvedDiffer(vs: Shelf, m1: Mount, m2: Mount, rest: Path, now: int)
    requires AllRefine(vs, now) && m1.volume in vs && m2.volume == m1.volume && m1.entryPath != m2.entryPath
    requires Simplify(m1.entryPath) == m1.entryPath && Simplify(m2.entryPath) == m2.entryPath
    requires Walk(vs[m1.volume].t.tree, ROOT_HANDLE, ComponentsOf(m1.entryPath) + rest).Some?
    ensures Walk(vs[m1.volume].t.tree, ROOT_HANDLE, ComponentsOf(m1.entryPath) + rest)
            != Walk(vs[m1.volume].t.tree, ROOT_HANDLE, ComponentsOf(m2.entryPath) + rest)
  {
    var a, b := ComponentsOf(m1.entryPath), ComponentsOf(m2.entryPath);
    SimplifyIsString(m1.entryPath);
    SimplifyIsString(m2.entryPath);
    RefinesAt(vs, m1.volume, now);
    RefinesTree(vs[m1.volume].v, vs[m1.volume].t, now);
    hide *;
    SameFront(a, b, rest);
    if Walk(vs[m1.volume].t.tree, ROOT_HANDLE, a + rest) == Walk(vs[m1.volume].t.tree, ROOT_HANDLE, b + rest) {
      WalkIsInjective(vs[m1.volume].t.tree, a + rest, b + rest);
    }
  }

  /**
   * Looking a path up asks each mount at its longest mounted prefix, in whatever order the calls
   * run. Each answer is that of the plain tree or, behind a stale cached path, nothing; the trees
   * do not change; and no entry comes twice.
   */
  lemma MergedLookup(vs: Shelf, points: seq<Mount>, path: Bytes, done: Path, rest: Path, order: seq<Mount>,
                     schedule: seq<nat>, now: int)
    requires AllRefine(vs, now) && TableOk(points) && AllMounted(vs, points) && SplitsAt(points, path, done, rest)
    requires PriorityOrder(order, Matching(points, PathString(done))) && IsSchedule(schedule, |order|)
    ensures Askable(vs, Asked(order, Simplify(path), PathString(done)), schedule)
    ensures forall i :: 0 <= i < |order| ==> order[i].volume in vs
    ensures var (found, vs1) := AskAll(vs, Asked(order, Simplify(path), PathString(done)), schedule, now);
            && AllRefine(vs1, now) && Kept(vs, vs1)
            && (forall i :: 0 <= i < |order| ==> Resolves(vs, order[i], rest, found[i], AllLive(vs)))
            && (forall i, j :: 0 <= i < j < |order| && found[i].Some? ==>
                  order[i].volume != order[j].volume || found[i] != found[j])
            && ((forall i :: 0 <= i < |order| ==> found[i].Some?) ==> AllFound(vs1, order, found))
  {
    hide *;
    var mpath := PathString(done);
    var plan := Asked(order, Simplify(path), mpath);
    PlanAskable(vs, points, Simplify(path), mpath, order, schedule);
    AskAllKeeps(vs, plan, schedule, now);
    var (found, vs1) := AskAll(vs, plan, schedule, now);
    forall i | 0 <= i < |order|
      ensures Resolves(vs, order[i], rest, found[i], AllLive(vs))
      ensures order[i].volume in vs1
      ensures found[i].Some? ==>
                found[i].value in vs1[order[i].volume].v.entries && found[i].value in vs1[order[i].volume].t.tree
    {
      AskedPlan(points, path, done, rest, order, i);
      KeptKeys(vs, vs1);
      RightAtGives(vs, vs1, AllLive(vs), plan, found, i);
      AnswerResolves(vs, vs1, order[i], plan[i].1, rest, found[i], AllLive(vs), now);
    }
    forall i, j | 0 <= i < j < |order| && found[i].Some?
      ensures order[i].volume != order[j].volume || found[i] != found[j]
    {
      if order[i].volume == order[j].volume {
        AskedDistinct(points, order, mpath, i, j);
        ResolvesGives(vs, order[i], rest, found[i], AllLive(vs));
        ResolvesGives(vs, order[j], rest, found[j], AllLive(vs));
        ResolvedDiffer(vs, order[i], order[j], rest, now);
      }
    }
    if forall i :: 0 <= i < |order| ==> found[i].Some? {
      MakeAllFound(vs1, order, found);
    }
  }

  lemma KeptKeys(vs: Shelf, vs1: Shelf)
    requires Kept(vs, vs1)
    ensures vs.Keys == vs1.Keys && forall k <- vs :: vs1[k].t.tree == vs[k].t.tree
  {
  }

  lemma RightAtGives(vs: Shelf, vs1: Shelf, live: bool, plan: seq<(nat, Bytes)>, found: seq<Option<nat>>, i: nat)
    requires i < |plan| == |found| && plan[i].0 in vs && plan[i].0 in vs1 && RightAt(vs, vs1, live, plan, found, i)
    ensures Right(vs, vs1, plan[i].0, plan[i].1, found[i]) && (live ==> found[i] == Wanted(vs, plan[i].0, plan[i].1))
  {
    hide Right;
    hide Wanted;
  }

  lemma ResolvesGives(vs: Shelf, m: Mount, rest: Path, found: Option<nat>, live: bool)
    requires m.volume in vs && Resolves(vs, m, rest, found, live)
    ensures found.Some? ==> found == Walk(vs[m.volume].t.tree, ROOT_HANDLE, ComponentsOf(m.entryPath) + rest)
  {
    hide Walk;
    hide ComponentsOf;
  }

  lemma AskedDistinct(points: seq<Mount>, order: seq<Mount>, mountPath: Bytes, i: nat, j: nat)
    requires TableOk(points) && PriorityOrder(order, Matching(points, mountPath)) && i < j < |order|
    ensures order[i].volume != order[j].volume || order[i].entryPath != order[j].entryPath
    ensures Simplify(order[i].entryPath) == order[i].entryPath && Simplify(order[j].entryPath) == order[j].entryPath
  {
    AskedDiffer(points, order, mountPath, i, j);
    AskedMounts(points, order, mountPath);
    hide PriorityOrder;
    hide Simplify;
    hide Unique;
    hide Sorted;
  }

  lemma MakeAllFound(vs1: Shelf, order: seq<Mount>, found: seq<Option<nat>>)
    requires |found| == |order|
    requires forall i :: 0 <= i < |order| ==>
               order[i].volume in vs1 && found[i].Some? && found[i].value in vs1[order[i].volume].v.entries
               && found[i].value in vs1[order[i].volume].t.tree
    ensures AllFound(vs1, order, found)
  {
  }

  /**
   * Reading a property of a merged entry, then or later, gives the property in the union, first
   * mount first, of the records that the plain trees of the mounted volumes hold at the mounted
   * entry and the rest of the path behind it.
   */
  lemma MergedReadIsUnion(vs: Shelf, points: seq<Mount>, path: Bytes, done: Path, rest: Path, order: seq<Mount>,
                          schedule: seq<nat>, now: int, later: int)
    requires AllRefine(vs, now) && TableOk(points) && AllMounted(vs, points) && SplitsAt(points, path, done, rest)
    requires PriorityOrder(order, Matching(points, PathString(done))) && IsSchedule(schedule, |order|)
    requires now <= later && Askable(vs, Asked(order, Simplify(path), PathString(done)), schedule)
    requires var (found, vs1) := AskAll(vs, Asked(order, Simplify(path), PathString(done)), schedule, now);
             forall i :: 0 <= i < |order| ==> found[i].Some?
    ensures var (found, vs1) := AskAll(vs, Asked(order, Simplify(path), PathString(done)), schedule, now);
            && AllFound(vs1, order, found)
            && HeldAt(vs, order, rest, TreeRecs(vs1, order, found))
            && Union(OpenRecs(vs1, order, found), later) == Union(TreeRecs(vs1, order, found), later)
  {
    hide *;
    MergedLookup(vs, points, path, done, rest, order, schedule, now);
    var (found, vs1) := AskAll(vs, Asked(order, Simplify(path), PathString(done)), schedule, now);
    SameUnion(vs1, order, found, now, later);
    forall i | 0 <= i < |order| ensures HeldBy(vs, order[i], rest, TreeRecs(vs1, order, found)[i]) {
      ResolvesGives(vs, order[i], rest, found[i], AllLive(vs));
      KeptKeys(vs, vs1);
      FoundInTree(vs, vs1, order, found, i);
      MakeHeldBy(vs, order[i], rest, TreeRecs(vs1, order, found)[i], found[i].value);
    }
    MakeHeldAt(vs, order, rest, TreeRecs(vs1, order, found));
  }

  /** The record that the plain tree of a mount's volume holds at its entry and the rest of the path. */
  predicate HeldBy(vs: Shelf, m: Mount, rest: Path, r: Rec) {
    && m.volume in vs
    && var walk := Walk(vs[m.volume].t.tree, ROOT_HANDLE, ComponentsOf(m.entryPath) + rest);
       walk.Some? && walk.value in vs[m.volume].t.tree && vs[m.volume].t.tree[walk.value] == r
  }

  predicate HeldAt(vs: Shelf, order: seq<Mount>, rest: Path, rs: seq<Rec>) {
    |rs| == |order| && forall i :: 0 <= i < |rs| ==> HeldBy(vs, order[i], rest, rs[i])
  }

  lemma MakeHeldBy(vs: Shelf, m: Mount, rest: Path, r: Rec, h: nat)
    requires m.volume in vs && Walk(vs[m.volume].t.tree, ROOT_HANDLE, ComponentsOf(m.entryPath) + rest) == Some(h)
    requires h in vs[m.volume].t.tree && vs[m.volume].t.tree[h] == r
    ensures HeldBy(vs, m, rest, r)
  {
  }

  lemma MakeHeldAt(vs: Shelf, order: seq<Mount>, rest: Path, rs: seq<Rec>)
    requires |rs| == |order| && forall i :: 0 <= i < |order| ==> HeldBy(vs, order[i], rest, rs[i])
    ensures HeldAt(vs, order, rest, rs)
  {
    hide HeldBy;
  }

  lemma FoundInTree(vs: Shelf, vs1: Shelf, order: seq<Mount>, found: seq<Option<nat>>, i: nat)
    requires AllFound(vs1, order, found) && i < |order| && vs.Keys == vs1.Keys
    requires forall k <- vs :: vs1[k].t.tree == vs[k].t.tree
    ensures order[i].volume in vs && found[i].Some? && found[i].value in vs[order[i].volume].t.tree
    ensures TreeRecs(vs1, order, found)[i] == vs[order[i].volume].t.tree[found[i].value]
  {
  }
}
