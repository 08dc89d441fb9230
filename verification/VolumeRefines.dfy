// Runs of a volume against runs of the plain tree: finding, reading, changing, linking,
// unlinking, releasing, and deinitialize followed by initialize (lib/ondisk/Volume_p.hpp).

module VolumeRefinement {
  import opened Wrappers
  import opened Serialization
  import opened Properties
  import opened Records
  import opened EngineRuns
  import opened Paths
  import opened MRUCaches
  import opened Volumes
  import opened PathCaches
  import V = VolumeRuns

  type Model = V.Model

  datatype VOp =
    | FindOp(path: Bytes, now: int)
    | ReadOp(h: nat, prop: Bytes, now: int)
    | LinksOp(h: nat, now: int)
    | MutateOp(h: nat, m: Mutation, now: int)
    | LinkOp(h: nat, name: Bytes, saved: bool, now: int)
    | UnlinkOp(h: nat, name: Bytes, now: int)
    | ReleaseOp(h: nat, now: int)
    | ReinitOp(now: int)

  datatype VOut =
    | FoundIs(entry: Option<nat>)
    | PropIs(value: Option<Property>)
    | LinksAre(names: set<Bytes>)
    | Did(status: Status)

  /** The handles a caller passes are of entries it holds; other arguments are free. */
  predicate Asks(held: set<nat>, op: VOp) {
    match op
    case ReadOp(h, _, _) => h in held
    case LinksOp(h, _) => h in held
    case MutateOp(h, _, _) => h in held
    case ReleaseOp(h, _) => h in held
    case _ => true
  }

  /** An entry held across deinitialize is let go before initialize, when saving it is refused. */
  function VStep(v: Volume, op: VOp): (VOut, Volume)
    requires v.entries.Keys <= v.disk.m.Keys && Asks(v.entries.Keys, op)
  {
    match op
    case FindOp(path, now) => var (found, w) := FindEntry(v, path, now); (FoundIs(found), w)
    case ReadOp(h, p, now) => (PropIs(GetProp(v.entries[h].rec, p, now)), v)
    case LinksOp(h, now) => (LinksAre(v.entries[h].rec.children.Keys), v)
    case MutateOp(h, m, now) => (Did(MutationStatus(v.entries[h].rec, m, now)), Mutate(v, h, m, now))
    case LinkOp(h, name, saved, now) => var (status, w) := Link(v, h, name, saved, now); (Did(status), w)
    case UnlinkOp(h, name, now) => var (status, w) := Unlink(v, h, name); (Did(status), w)
    case ReleaseOp(h, now) => (Did(Ok), Release(v, h, now))
    case ReinitOp(now) => (Did(Ok), Reinitialize(v, now))
  }

  /**
   * What the plain tree cannot know: whether the longest cached prefix of a path is stale, and
   * whether a property that has expired is still in the open record.
   */
  predicate Hint(v: Volume, op: VOp)
    requires v.entries.Keys <= v.disk.m.Keys && Asks(v.entries.Keys, op)
  {
    match op
    case FindOp(path, _) => Stale(v, ComponentsOf(path))
    case MutateOp(h, m, _) => m.RemoveP? && m.prop in v.entries[h].rec.props
    case _ => false
  }

  function ModelStatus(r: Rec, m: Mutation, now: int, hint: bool): Status {
    if m.RemoveP? && !HasProp(r, m.prop, now) then (if hint then Ok else NotFound) else MutationStatus(r, m, now)
  }

  function ModelFind(t: Model, path: Bytes, stale: bool): Option<nat> {
    if stale then None else Walk(t.tree, ROOT_HANDLE, ComponentsOf(path))
  }

  function ModelLink(t: Model, h: nat, name: Bytes, saved: bool): (Status, Model)
    requires t.held <= t.tree.Keys
  {
    if !ValidName(name) || h !in t.held || name in t.tree[h].children then (InvalidArgument, t)
    else if !saved then (IOError, t.(counter := t.counter + 1))
    else (Ok, t.(tree := V.Linked(t.tree, h, name, t.counter), counter := t.counter + 1))
  }

  function ModelUnlink(t: Model, h: nat, name: Bytes): (Status, Model)
    requires t.held <= t.tree.Keys
  {
    if h !in t.held || name !in t.tree[h].children then (InvalidArgument, t)
    else
      var c := t.tree[h].children[name];
      if c in t.held then (InvalidOperation, t)
      else if c !in t.tree || t.tree[c].children != map[] then (InvalidArgument, t)
      else (Ok, t.(tree := V.Unlinked(t.tree, h, c)))
  }

  /** The plain tree: no table of open records, no cache, no store behind it. */
  function ModelStep(t: Model, op: VOp, hint: bool): (VOut, Model)
    requires t.held <= t.tree.Keys && Asks(t.held, op)
  {
    match op
    case FindOp(path, _) =>
      var found := ModelFind(t, path, hint);
      (FoundIs(found), if found.Some? then t.(held := t.held + {found.value}) else t)
    case ReadOp(h, p, now) => (PropIs(GetProp(t.tree[h], p, now)), t)
    case LinksOp(h, _) => (LinksAre(t.tree[h].children.Keys), t)
    case MutateOp(h, m, now) =>
      (Did(ModelStatus(t.tree[h], m, now, hint)), t.(tree := t.tree[h := Mutated(t.tree[h], m, now)]))
    case LinkOp(h, name, saved, _) => var (status, u) := ModelLink(t, h, name, saved); (Did(status), u)
    case UnlinkOp(h, name, _) => var (status, u) := ModelUnlink(t, h, name); (Did(status), u)
    case ReleaseOp(h, _) => (Did(Ok), t.(held := t.held - {h}))
    case ReinitOp(_) => (Did(Ok), t.(held := {}))
  }

  /** The record still holds a property whose expiration has passed. */
  predicate Lapsed(r: Rec, p: Bytes, now: int) {
    p in r.props && Expired(r, p, now)
  }

  /** Cancelling an expiration that has passed can bring the property back; runs do not do that. */
  predicate Guard(v: Volume, t: Model, op: VOp)
    requires v.entries.Keys <= v.disk.m.Keys && t.held <= t.tree.Keys && t.held == v.entries.Keys
  {
    && Asks(t.held, op)
    && (op.MutateOp? && op.m.CancelP? ==>
          !Lapsed(v.entries[op.h].rec, op.m.prop, op.now) && !Lapsed(t.tree[op.h], op.m.prop, op.now))
    && (op.LinkOp? ==> t.counter + 1 < TWO64)
  }

  lemma RefinesGives(v: Volume, t: Model, now: int)
    requires V.Refines(v, t, now)
    ensures V.Inv(v, now) && Sound(v) && V.SameTrees(View(v), t.tree, now) && IsTree(View(v))
    ensures v.disk.counter == t.counter && v.entries.Keys == t.held
    ensures v.entries.Keys <= v.disk.m.Keys && View(v).Keys == v.disk.m.Keys == t.tree.Keys && t.held <= t.tree.Keys
    ensures forall h <- v.entries :: View(v)[h] == v.entries[h].rec
    ensures SameShape(View(v), t.tree)
    ensures forall h <- v.disk.m :: h < v.disk.counter
  {
    hide IsTree;
    hide CacheOk;
    hide V.Same;
    V.SameTreesShape(View(v), t.tree, now);
  }

  lemma MakeRefines(v: Volume, w: Volume, t: Model, u: Model, now: int)
    requires V.Inv(w, now) && V.SameTrees(View(w), View(v), now) && V.SameTrees(View(v), t.tree, now)
    requires u.tree == t.tree && u.counter == w.disk.counter && u.held == w.entries.Keys
    ensures V.Refines(w, u, now)
  {
  }

  ghost predicate Agree(v: Volume, t: Model, op: VOp)
    requires v.entries.Keys <= v.disk.m.Keys && Asks(v.entries.Keys, op) && t.held <= t.tree.Keys && Asks(t.held, op)
  {
    && VStep(v, op).0 == ModelStep(t, op, Hint(v, op)).0
    && V.Refines(VStep(v, op).1, ModelStep(t, op, Hint(v, op)).1, op.now)
  }

  // ---------------------------------------------------------------------------
  // Each operation

  lemma NewCacheKeepsInv(v: Volume, w: Volume, now: int)
    requires V.Inv(v, now) && Sound(w) && w == v.(cache := w.cache)
    ensures V.Inv(w, now) && View(w) == View(v)
  {
  }

  lemma FindRefines(v: Volume, t: Model, path: Bytes, now: int)
    requires V.Refines(v, t, now)
    ensures var (found, w) := FindEntry(v, path, now);
            && found == ModelFind(t, path, Stale(v, ComponentsOf(path)))
            && V.Refines(w, if found.Some? then t.(held := t.held + {found.value}) else t, now)
  {
    hide *;
    RefinesGives(v, t, now);
    var cs := ComponentsOf(path);
    ComponentsAreNames(path);
    FindHandleIsWalk(v, cs);
    var (found, v1) := FindHandle(v, cs);
    NewCacheKeepsInv(v, v1, now);
    RootInTree(View(v));
    WalkStaysIn(View(v), ROOT_HANDLE, cs);
    ShapeWalk(View(v), t.tree, ROOT_HANDLE, cs);
    V.SameTreesReflexive(View(v), now);
    if found.Some? {
      V.OpenIsTransparent(v1, found.value, now);
      FindUnfolds(v, path, now);
      var w := OpenHandle(v1, found.value, now).1;
      if found.value in v.disk.m {
        MakeRefines(v1, w, t, t.(held := t.held + {found.value}), now);
      } else {
        MakeRefines(v1, w, t, t, now);
      }
    } else {
      FindUnfolds(v, path, now);
      MakeRefines(v, v1, t, t, now);
    }
    ModelFindUnfolds(t, path, Stale(v, cs));
  }

  lemma RootInTree(t: Tree)
    requires IsTree(t)
    ensures ROOT_HANDLE in t
  {
  }

  lemma ModelFindUnfolds(t: Model, path: Bytes, stale: bool)
    ensures ModelFind(t, path, stale) == if stale then None else Walk(t.tree, ROOT_HANDLE, ComponentsOf(path))
  {
  }

  /** A removal that finds an expired property still there succeeds; one after a save does not. */
  lemma StatusRefines(a: Rec, b: Rec, m: Mutation, now: int)
    requires V.Same(a, b, now)
    ensures MutationStatus(a, m, now) == ModelStatus(b, m, now, m.RemoveP? && m.prop in a.props)
  {
    if m.RemoveP? || m.ExpireP? {
      CleanupKeepsVisible(a, m.prop, now);
      CleanupKeepsVisible(b, m.prop, now);
    }
  }

  lemma CleanupKeepsVisible(r: Rec, p: Bytes, now: int)
    ensures HasProp(r, p, now) <==> p in Cleanup(r, now).props
  {
  }

  lemma MutateRefines(v: Volume, t: Model, h: nat, m: Mutation, now: int)
    requires V.Refines(v, t, now) && h in v.entries && h in t.tree
    requires m.CancelP? ==> !Lapsed(v.entries[h].rec, m.prop, now) && !Lapsed(t.tree[h], m.prop, now)
    ensures MutationStatus(v.entries[h].rec, m, now)
            == ModelStatus(t.tree[h], m, now, m.RemoveP? && m.prop in v.entries[h].rec.props)
    ensures V.Refines(Mutate(v, h, m, now), t.(tree := t.tree[h := Mutated(t.tree[h], m, now)]), now)
  {
    hide *;
    RefinesGives(v, t, now);
    SameTreesAt(View(v), t.tree, h, now);
    StatusRefines(View(v)[h], t.tree[h], m, now);
    LapsedIs(View(v)[h], m.prop, now);
    LapsedIs(t.tree[h], m.prop, now);
    V.SameMutated(View(v)[h], t.tree[h], m, now);
    V.MutateKeepsInv(v, h, m, now);
    SameTreesUpdate(View(v), t.tree, h, Mutated(View(v)[h], m, now), Mutated(t.tree[h], m, now), now);
    MakeAgrees(Mutate(v, h, m, now), t.(tree := t.tree[h := Mutated(t.tree[h], m, now)]), now);
  }

  lemma LapsedIs(r: Rec, p: Bytes, now: int)
    ensures Lapsed(r, p, now) == (Expired(r, p, now) && p in r.props)
  {
  }

  lemma SameTreesAt(t: Tree, u: Tree, h: nat, now: int)
    requires V.SameTrees(t, u, now) && h in t
    ensures h in u && V.Same(t[h], u[h], now)
  {
  }

  lemma SameTreesUpdate(t: Tree, u: Tree, h: nat, a: Rec, b: Rec, now: int)
    requires V.SameTrees(t, u, now) && V.Same(a, b, now)
    ensures V.SameTrees(t[h := a], u[h := b], now)
  {
  }

  lemma SameLinked(t: Tree, u: Tree, h: nat, name: Bytes, c: nat, now: int)
    requires V.SameTrees(t, u, now) && h in t
    ensures V.SameTrees(V.Linked(t, h, name, c), V.Linked(u, h, name, c), now)
  {
    V.SameSkeleton(t[h], u[h], now);
    SameChildren(t[h], u[h], t[h].children[name := c], now);
    V.SameReflexive(NewRec(c, name).(parent := h), now);
    hide V.Same;
  }

  lemma SameUnlinked(t: Tree, u: Tree, h: nat, c: nat, now: int)
    requires V.SameTrees(t, u, now) && h in t
    ensures V.SameTrees(V.Unlinked(t, h, c), V.Unlinked(u, h, c), now)
  {
    V.SameSkeleton(t[h], u[h], now);
    SameChildren(t[h], u[h], WithoutHandle(t[h].children, c), now);
    hide V.Same;
    hide WithoutHandle;
  }

  lemma SameChildren(a: Rec, b: Rec, children: map<Bytes, nat>, now: int)
    requires V.Same(a, b, now)
    ensures V.Same(a.(children := children), b.(children := children), now)
  {
    CleanupChildren(a, children, now);
    CleanupChildren(b, children, now);
  }

  lemma CleanupChildren(r: Rec, children: map<Bytes, nat>, now: int)
    ensures Cleanup(r.(children := children), now) == Cleanup(r, now).(children := children)
  {
  }

  lemma LinkRefines(v: Volume, t: Model, h: nat, name: Bytes, saved: bool, now: int)
    requires V.Refines(v, t, now) && t.held <= t.tree.Keys
    ensures Link(v, h, name, saved, now).0 == ModelLink(t, h, name, saved).0
    ensures V.Refines(Link(v, h, name, saved, now).1, ModelLink(t, h, name, saved).1, now)
  {
    RefinesGives(v, t, now);
    assert h in v.entries ==> Skeleton(View(v)[h]) == Skeleton(t.tree[h]);
    LinkStatus(v, h, name, saved, now) by { hide *; }
    hide V.Inv;
    hide V.Agrees;
    hide Sound;
    hide IsTree;
    hide SameShape;
    hide ValidName;
    hide CanAdd;
    var (status, w) := Link(v, h, name, saved, now);
    hide Link;
    if status.Ok? {
      V.LinkAddsLeaf(v, h, name, saved, now);
      SameLinked(View(v), t.tree, h, name, t.counter, now);
      hide View;
      hide V.SameTrees;
      hide V.Linked;
      MakeAgrees(w, ModelLink(t, h, name, saved).1, now);
    } else {
      V.FailedLinkChangesNothing(v, h, name, saved, now);
      MoreHandles(v, w, now);
      hide View;
      hide V.SameTrees;
      MakeAgrees(w, ModelLink(t, h, name, saved).1, now);
    }
  }

  lemma MakeAgrees(w: Volume, u: Model, now: int)
    requires V.Inv(w, now) && V.SameTrees(View(w), u.tree, now) && w.disk.counter == u.counter
               && w.entries.Keys == u.held
    ensures V.Refines(w, u, now)
  {
  }

  /** The answer of a link, and how far the key counter moves. */
  lemma LinkStatus(v: Volume, h: nat, name: Bytes, saved: bool, now: int)
    requires Sound(v)
    ensures var (status, w) := Link(v, h, name, saved, now);
            if !ValidName(name) || h !in v.entries || name in v.entries[h].rec.children
            then status == InvalidArgument && w == v
            else status == (if saved then Ok else IOError) && w.disk.counter == v.disk.counter + 1
  {
    hide ValidName;
    if ValidName(name) && h in v.entries && name !in v.entries[h].rec.children {
      V.FreshHandle(v, h, name);
      hide Sound;
      V.LinkResult(v, h, name, saved, now);
      hide Link;
    }
  }

  lemma MoreHandles(v: Volume, w: Volume, now: int)
    requires V.Inv(v, now) && w == v.(disk := v.disk.(counter := w.disk.counter)) && w.disk.counter >= v.disk.counter
    ensures V.Inv(w, now)
  {
    hide V.Same;
    hide V.StoredOk;
    hide IsTree;
    assert View(w) == View(v);
    assert v.entries.Keys <= v.disk.m.Keys;
    LimitGrows(v.cache, View(v), v.disk.counter, w.disk.counter);
    hide CacheOk;
  }

  lemma LimitGrows(cache: Cache<Bytes, nat>, t: Tree, a: nat, b: nat)
    requires CacheOk(cache, t, a) && a <= b
    ensures CacheOk(cache, t, b)
  {
  }

  lemma ChildStored(v: Volume, h: nat, name: Bytes)
    requires IsTree(View(v)) && h in View(v) && name in View(v)[h].children
    ensures View(v)[h].children[name] in v.disk.m
  {
  }

  lemma UnlinkStatus(v: Volume, h: nat, name: Bytes)
    ensures Unlink(v, h, name).0
            == if h !in v.entries || name !in v.entries[h].rec.children then InvalidArgument
               else if v.entries[h].rec.children[name] in v.entries then InvalidOperation
               else if v.entries[h].rec.children[name] !in v.disk.m then InvalidArgument
               else if v.disk.m[v.entries[h].rec.children[name]].children != map[] then InvalidArgument
               else Ok
    ensures !Unlink(v, h, name).0.Ok? ==> Unlink(v, h, name).1 == v
  {
  }

  lemma UnlinkRefines(v: Volume, t: Model, h: nat, name: Bytes, now: int)
    requires V.Refines(v, t, now) && t.held <= t.tree.Keys
    ensures Unlink(v, h, name).0 == ModelUnlink(t, h, name).0
    ensures V.Refines(Unlink(v, h, name).1, ModelUnlink(t, h, name).1, now)
  {
    RefinesGives(v, t, now);
    UnlinkStatus(v, h, name);
    if h in v.entries && name in v.entries[h].rec.children {
      var c := v.entries[h].rec.children[name];
      assert Skeleton(View(v)[h]) == Skeleton(t.tree[h]);
      ChildStored(v, h, name);
      assert Skeleton(View(v)[c]) == Skeleton(t.tree[c]);
      assert c !in v.entries ==> View(v)[c] == v.disk.m[c];
      hide V.Inv;
      hide Sound;
      hide IsTree;
      hide SameShape;
      hide Unlink;
      hide V.Agrees;
      if Unlink(v, h, name).0.Ok? {
        V.UnlinkRemovesLeaf(v, h, name, now);
        SameUnlinked(View(v), t.tree, h, c, now);
        hide View;
        hide V.SameTrees;
        hide V.Unlinked;
        MakeAgrees(Unlink(v, h, name).1, ModelUnlink(t, h, name).1, now);
      }
    }
  }

  lemma ReleaseRefines(v: Volume, t: Model, h: nat, now: int)
    requires V.Refines(v, t, now) && h in v.entries
    ensures V.Refines(Release(v, h, now), t.(held := t.held - {h}), now)
  {
    hide *;
    RefinesGives(v, t, now);
    V.ReleaseIsTransparent(v, h, now);
    MakeRefines(v, Release(v, h, now), t, t.(held := t.held - {h}), now);
  }

  lemma ReinitializeRefines(v: Volume, t: Model, now: int)
    requires V.Refines(v, t, now)
    ensures V.Refines(Reinitialize(v, now), t.(held := {}), now)
  {
    hide *;
    RefinesGives(v, t, now);
    V.ReinitializeIsTransparent(v, now);
    MakeRefines(v, Reinitialize(v, now), t, t.(held := {}), now);
  }

  // ---------------------------------------------------------------------------
  // Runs

  lemma ReadRefines(v: Volume, t: Model, h: nat, p: Bytes, now: int)
    requires V.Refines(v, t, now) && h in v.entries && h in t.tree
    ensures GetProp(v.entries[h].rec, p, now) == GetProp(t.tree[h], p, now)
    ensures v.entries[h].rec.children == t.tree[h].children
  {
    hide *;
    RefinesGives(v, t, now);
    SameTreesAt(View(v), t.tree, h, now);
    V.SameReads(View(v)[h], t.tree[h], p, now);
    V.SameSkeleton(View(v)[h], t.tree[h], now);
    SkeletonChildren(View(v)[h]);
    SkeletonChildren(t.tree[h]);
  }

  lemma SkeletonChildren(r: Rec)
    ensures Skeleton(r).children == r.children
  {
  }

  /** One step of a volume answers as the plain tree does, and they still agree. */
  lemma StepRefines(v: Volume, t: Model, op: VOp, now: int)
    requires V.Refines(v, t, now) && now <= op.now
    requires v.entries.Keys <= v.disk.m.Keys && t.held <= t.tree.Keys && t.held == v.entries.Keys && Guard(v, t, op)
    ensures Agree(v, t, op)
  {
    hide V.Refines;
    hide FindEntry;
    hide Link;
    hide Unlink;
    hide Release;
    hide Reinitialize;
    hide Mutate;
    hide Mutated;
    hide MutationStatus;
    hide ModelStatus;
    hide ModelFind;
    hide ModelLink;
    hide ModelUnlink;
    hide GetProp;
    hide Stale;
    hide Lapsed;
    V.RefinesLater(v, t, now, op.now);
    match op {
      case FindOp(path, n) => FindRefines(v, t, path, n);
      case ReadOp(h, p, n) => ReadRefines(v, t, h, p, n);
      case LinksOp(h, n) => ReadRefines(v, t, h, [], n);
      case MutateOp(h, m, n) => MutateRefines(v, t, h, m, n);
      case LinkOp(h, name, saved, n) => LinkRefines(v, t, h, name, saved, n);
      case UnlinkOp(h, name, n) => UnlinkRefines(v, t, h, name, n);
      case ReleaseOp(h, n) => ReleaseRefines(v, t, h, n);
      case ReinitOp(n) => ReinitializeRefines(v, t, n);
    }
  }

  /** A run whose every step is asked for as the guard says, at times that do not go back. */
  ghost predicate Runs(v: Volume, t: Model, ops: seq<VOp>, now: int)
    decreases |ops|
  {
    ops == [] ||
    (&& now <= ops[0].now
     && v.entries.Keys <= v.disk.m.Keys && t.held <= t.tree.Keys && t.held == v.entries.Keys && Guard(v, t, ops[0])
     && Runs(VStep(v, ops[0]).1, ModelStep(t, ops[0], Hint(v, ops[0])).1, ops[1..], ops[0].now))
  }

  ghost function RunVolume(v: Volume, t: Model, ops: seq<VOp>, now: int): (seq<VOut>, Volume)
    requires Runs(v, t, ops, now)
    decreases |ops|
  {
    if ops == [] then ([], v)
    else
      var (out, w) := VStep(v, ops[0]);
      var (outs, x) := RunVolume(w, ModelStep(t, ops[0], Hint(v, ops[0])).1, ops[1..], ops[0].now);
      ([out] + outs, x)
  }

  ghost function RunModel(v: Volume, t: Model, ops: seq<VOp>, now: int): (seq<VOut>, Model)
    requires Runs(v, t, ops, now)
    decreases |ops|
  {
    if ops == [] then ([], t)
    else
      var (out, u) := ModelStep(t, ops[0], Hint(v, ops[0]));
      var (outs, x) := RunModel(VStep(v, ops[0]).1, u, ops[1..], ops[0].now);
      ([out] + outs, x)
  }

  ghost function LastTime(ops: seq<VOp>, now: int): int {
    if ops == [] then now else ops[|ops| - 1].now
  }

  /** The state pairs of a run, unrolled by one step. */
  lemma RunUnfolds(v: Volume, t: Model, ops: seq<VOp>, now: int)
    requires V.Refines(v, t, now) && Runs(v, t, ops, now) && ops != []
    ensures v.entries.Keys <= v.disk.m.Keys && t.held <= t.tree.Keys && Asks(v.entries.Keys, ops[0])
              && Asks(t.held, ops[0])
    ensures var op := ops[0];
            var (out, w) := VStep(v, op);
            var (answer, u) := ModelStep(t, op, Hint(v, op));
            && out == answer && V.Refines(w, u, op.now) && Runs(w, u, ops[1..], op.now)
            && RunVolume(v, t, ops, now)
               == ([out] + RunVolume(w, u, ops[1..], op.now).0, RunVolume(w, u, ops[1..], op.now).1)
            && RunModel(v, t, ops, now)
               == ([answer] + RunModel(w, u, ops[1..], op.now).0, RunModel(w, u, ops[1..], op.now).1)
  {
    hide V.Refines;
    hide VStep;
    hide ModelStep;
    hide Hint;
    StepRefines(v, t, ops[0], now);
  }

  /**
   * Over every run a volume answers as the plain tree, and what it shows at the end is that
   * tree: open records are a transparent write-back overlay, links and unlinks keep a tree,
   * and deinitialize followed by initialize changes nothing.
   */
  lemma {:induction false} RunRefines(v: Volume, t: Model, ops: seq<VOp>, now: int)
    requires V.Refines(v, t, now) && Runs(v, t, ops, now)
    ensures RunVolume(v, t, ops, now).0 == RunModel(v, t, ops, now).0
    ensures V.Refines(RunVolume(v, t, ops, now).1, RunModel(v, t, ops, now).1, LastTime(ops, now))
    ensures IsTree(RunModel(v, t, ops, now).1.tree)
    decreases |ops|
  {
    if ops == [] {
      hide V.Refines;
      RefinesTree(v, t, now);
    } else {
      hide *;
      RunUnfolds(v, t, ops, now);
      var w, u := VStep(v, ops[0]).1, ModelStep(t, ops[0], Hint(v, ops[0])).1;
      RunRefines(w, u, ops[1..], ops[0].now);
      LastTimeUnfolds(ops, now);
    }
  }

  lemma LastTimeUnfolds(ops: seq<VOp>, now: int)
    requires ops != []
    ensures LastTime(ops, now) == LastTime(ops[1..], ops[0].now)
  {
  }

  lemma RefinesTree(v: Volume, t: Model, now: int)
    requires V.Refines(v, t, now)
    ensures IsTree(t.tree)
  {
    RefinesGives(v, t, now);
    ShapeIsTree(View(v), t.tree);
    hide IsTree;
  }

  // ---------------------------------------------------------------------------
  // Handles are never issued twice

  /** The handle a step draws from the key counter, if it draws one. */
  function Issued(v: Volume, op: VOp): seq<nat>
    requires v.entries.Keys <= v.disk.m.Keys && Asks(v.entries.Keys, op)
  {
    if VStep(v, op).1.disk.counter == v.disk.counter then [] else [v.disk.counter]
  }

  ghost function AllIssued(v: Volume, t: Model, ops: seq<VOp>, now: int): seq<nat>
    requires Runs(v, t, ops, now)
    decreases |ops|
  {
    if ops == [] then []
    else Issued(v, ops[0])
         + AllIssued(VStep(v, ops[0]).1, ModelStep(t, ops[0], Hint(v, ops[0])).1, ops[1..], ops[0].now)
  }

  ghost predicate Ascending(s: seq<nat>, lo: nat, hi: nat) {
    && (forall i :: 0 <= i < |s| ==> lo <= s[i] < hi)
    && (forall i, j :: 0 <= i < j < |s| ==> s[i] < s[j])
  }

  /** A step draws at most one handle, the counter's, for a link; nothing else becomes stored. */
  predicate Draws(v: Volume, w: Volume) {
    && v.disk.counter <= w.disk.counter <= v.disk.counter + 1
    && forall h <- w.disk.m :: h in v.disk.m || (h == v.disk.counter && w.disk.counter == v.disk.counter + 1)
  }

  lemma ModelDraws(t: Model, op: VOp, hint: bool)
    requires t.held <= t.tree.Keys && Asks(t.held, op)
    ensures var u := ModelStep(t, op, hint).1;
            && t.counter <= u.counter <= t.counter + 1
            && forall h <- u.tree.Keys :: h in t.tree.Keys || (h == t.counter && u.counter == t.counter + 1)
  {
  }

  lemma StepDraws(v: Volume, t: Model, op: VOp, now: int)
    requires V.Refines(v, t, now) && now <= op.now
    requires v.entries.Keys <= v.disk.m.Keys && t.held <= t.tree.Keys && t.held == v.entries.Keys && Guard(v, t, op)
    requires Asks(v.entries.Keys, op)
    ensures Draws(v, VStep(v, op).1)
  {
    hide *;
    var w, u := VStep(v, op).1, ModelStep(t, op, Hint(v, op)).1;
    RefinesGives(v, t, now);
    StepRefines(v, t, op, now);
    AgreeGives(v, t, op);
    ModelDraws(t, op, Hint(v, op));
    RefinesGives(w, u, op.now);
    MakeDraws(v, w);
  }

  lemma AgreeGives(v: Volume, t: Model, op: VOp)
    requires v.entries.Keys <= v.disk.m.Keys && Asks(v.entries.Keys, op) && t.held <= t.tree.Keys && Asks(t.held, op)
    requires Agree(v, t, op)
    ensures V.Refines(VStep(v, op).1, ModelStep(t, op, Hint(v, op)).1, op.now)
  {
  }

  lemma MakeDraws(v: Volume, w: Volume)
    requires v.disk.counter <= w.disk.counter <= v.disk.counter + 1
    requires forall h <- w.disk.m.Keys :: h in v.disk.m.Keys
               || (h == v.disk.counter && w.disk.counter == v.disk.counter + 1)
    ensures Draws(v, w)
  {
  }

  lemma IssuedUnfolds(v: Volume, t: Model, ops: seq<VOp>, now: int)
    requires V.Refines(v, t, now) && Runs(v, t, ops, now) && ops != []
    requires v.entries.Keys <= v.disk.m.Keys && t.held <= t.tree.Keys && Asks(v.entries.Keys, ops[0])
               && Asks(t.held, ops[0])
    ensures var op := ops[0];
            var w, u := VStep(v, op).1, ModelStep(t, op, Hint(v, op)).1;
            && Draws(v, w) && Runs(w, u, ops[1..], op.now)
            && AllIssued(v, t, ops, now) == (if w.disk.counter == v.disk.counter then [] else [v.disk.counter])
                                            + AllIssued(w, u, ops[1..], op.now)
  {
    hide V.Refines;
    hide VStep;
    hide ModelStep;
    hide Hint;
    hide Draws;
    StepDraws(v, t, ops[0], now);
  }

  /**
   * Over every run, across deinitialize and initialize too, the handles drawn ascend: each is
   * above every handle drawn, stored or removed before it. What is stored at the end was
   * stored at the start or drawn in between.
   */
  lemma {:induction false} HandlesIssuedOnce(v: Volume, t: Model, ops: seq<VOp>, now: int)
    requires V.Refines(v, t, now) && Runs(v, t, ops, now)
    ensures var w := RunVolume(v, t, ops, now).1;
            && v.disk.counter <= w.disk.counter
            && Ascending(AllIssued(v, t, ops, now), v.disk.counter, w.disk.counter)
            && (forall h <- v.disk.m :: h < v.disk.counter)
            && (forall h <- w.disk.m :: h in v.disk.m || h in AllIssued(v, t, ops, now))
    decreases |ops|
  {
    hide *;
    RefinesGives(v, t, now);
    if ops == [] {
      NoneIssued(v, t, now);
    } else {
      RunUnfolds(v, t, ops, now);
      IssuedUnfolds(v, t, ops, now);
      var w, u := VStep(v, ops[0]).1, ModelStep(t, ops[0], Hint(v, ops[0])).1;
      HandlesIssuedOnce(w, u, ops[1..], ops[0].now);
      IssuedStep(v, w, AllIssued(w, u, ops[1..], ops[0].now), RunVolume(w, u, ops[1..], ops[0].now).1);
      DrawsGives(v, w);
    }
  }

  lemma NoneIssued(v: Volume, t: Model, now: int)
    requires Runs(v, t, [], now)
    ensures RunVolume(v, t, [], now).1 == v && Ascending(AllIssued(v, t, [], now), v.disk.counter, v.disk.counter)
  {
  }

  lemma DrawsGives(v: Volume, w: Volume)
    requires Draws(v, w)
    ensures v.disk.counter <= w.disk.counter
  {
  }

  lemma IssuedStep(v: Volume, w: Volume, later: seq<nat>, x: Volume)
    requires Draws(v, w) && Ascending(later, w.disk.counter, x.disk.counter) && w.disk.counter <= x.disk.counter
    requires forall h <- x.disk.m :: h in w.disk.m || h in later
    ensures var all := (if w.disk.counter == v.disk.counter then [] else [v.disk.counter]) + later;
            && Ascending(all, v.disk.counter, x.disk.counter)
            && forall h <- x.disk.m :: h in v.disk.m || h in all
  {
  }

  // ---------------------------------------------------------------------------
  // A volume over a new store

  const NEW_VOLUME: Volume := Volume(NEW_STORE, map[], [])
  const NEW_MODEL: Model := V.Model(NEW_STORE.m, NEW_STORE.counter, {})

  /** Runs can start at a new store: its volume shows the root alone. */
  lemma NewVolumeRefines(now: int)
    ensures V.Refines(NEW_VOLUME, NEW_MODEL, now)
  {
  }

  // ---------------------------------------------------------------------------
  // Where the cache and the walk part

  lemma CachedExactly(v: Volume, cs: Path)
    requires Resident(v.cache, PathString(cs)) && ValueOf(v.cache, PathString(cs)) !in v.disk.m
    ensures Stale(v, cs)
  {
  }

  /** After the unlink and the link the walk finds the new child. */
  lemma RelinkWalk(t: Tree, u: Tree, done: Path, h: nat, name: Bytes, c: nat)
    requires IsTree(t) && h in t && name in t[h].children && t[h].children[name] in t
               && t[t[h].children[name]].children == map[]
    requires Walk(t, ROOT_HANDLE, done) == Some(h) && c !in t
    requires u == V.Linked(V.Unlinked(t, h, t[h].children[name]), h, name, c) && h != t[h].children[name]
    requires name !in V.Unlinked(t, h, t[h].children[name])[h].children
    ensures Walk(u, ROOT_HANDLE, done + [name]) == Some(c)
  {
    var gone := t[h].children[name];
    var mid := V.Unlinked(t, h, gone);
    RootInTree(t);
    V.UnlinkedIsTree(t, h, name);
    V.UnlinkedWalks(t, h, gone, ROOT_HANDLE, done);
    RootInTree(mid);
    hide IsTree;
    hide Walk;
    V.LinkedWalks(mid, h, name, c, ROOT_HANDLE, done);
    WalkConcat(u, ROOT_HANDLE, done, [name]);
    OneStep(u, h, name);
  }

  /**
   * Unlinking a child whose path is cached, and linking the name again, hides the new child:
   * the walk finds it and the lookup by path finds nothing.
   */
  lemma RelinkIsHidden(v: Volume, t: Model, done: Path, h: nat, name: Bytes, path: Bytes, now: int)
    requires V.Refines(v, t, now) && h in v.entries && name in v.entries[h].rec.children
    requires Names(done + [name]) && ComponentsOf(path) == done + [name] && Walk(View(v), ROOT_HANDLE, done) == Some(h)
    requires Resident(v.cache, PathString(done + [name]))
    requires ValueOf(v.cache, PathString(done + [name])) == v.entries[h].rec.children[name]
    requires Unlink(v, h, name).0.Ok? && Link(Unlink(v, h, name).1, h, name, true, now).0.Ok?
    ensures var w := Link(Unlink(v, h, name).1, h, name, true, now).1;
            Walk(View(w), ROOT_HANDLE, ComponentsOf(path)) == Some(v.disk.counter) && FindEntry(w, path, now).0 == None
  {
    hide *;
    var mid := Unlink(v, h, name).1;
    var w := Link(mid, h, name, true, now).1;
    var c := v.entries[h].rec.children[name];
    RefinesGives(v, t, now);
    V.UnlinkRemovesLeaf(v, h, name, now);
    V.LinkAddsLeaf(mid, h, name, true, now);
    V.InvSound(w, now);
    V.ViewDomain(w);
    V.InvSound(mid, now);
    V.SoundGives(mid);
    V.ViewAt(v, h);
    V.ViewAt(mid, h);
    V.LinkedDomain(View(mid), h, name, v.disk.counter);
    V.UnlinkedDomain(View(v), h, c);
    V.ViewAt(v, c);
    RelinkWalk(View(v), View(w), done, h, name, v.disk.counter);
    CachedExactly(w, done + [name]);
    EntryIsWalk(w, path, now);
  }

  // ---------------------------------------------------------------------------
  // Until something is unlinked, lookups are exact

  ghost predicate LiveCache(cache: Cache<Bytes, nat>, t: Tree) {
    forall i :: 0 <= i < |cache| ==> cache[i].1 in t
  }

  lemma ApplyLive(cache: Cache<Bytes, nat>, op: CacheOp<Bytes, nat>, t: Tree)
    requires LiveCache(cache, t) && (op.InsertOp? ==> op.value in t)
    ensures LiveCache(Apply(cache, op, PATH_CACHE_SIZE), t)
  {
  }

  lemma {:induction false} SearchLive(cache: Cache<Bytes, nat>, cs: Path, t: Tree)
    requires LiveCache(cache, t)
    ensures LiveCache(SearchCached(cache, cs).1, t)
    ensures SearchCached(cache, cs).0.Some? ==> SearchCached(cache, cs).0.value.0 in t
    decreases |cs|
  {
    hide PathString;
    if Resident(cache, PathString(cs)) {
      ApplyLive(cache, LookupOp(PathString(cs)), t);
    } else if cs != [] {
      SearchLive(cache, cs[..|cs| - 1], t);
    }
  }

  lemma {:induction false} WalkDownLive(v: Volume, h: nat, tokens: Path, track: Bytes)
    requires v.entries.Keys <= v.disk.m.Keys && IsTree(View(v)) && LiveCache(v.cache, View(v))
    ensures var w := WalkDown(v, h, tokens, track).1;
            w == v.(cache := w.cache) && LiveCache(w.cache, View(v))
    decreases |tokens|
  {
    WalkDownUnfolds(v, h, tokens, track);
    hide WalkDown;
    hide IsTree;
    hide Inserted;
    hide LiveCache;
    if tokens != [] && h in v.disk.m && tokens[0] in View(v)[h].children {
      ChildStored(v, h, tokens[0]);
      var c, track1 := View(v)[h].children[tokens[0]], track + ([SEPARATOR] + tokens[0]);
      InsertedLive(v.cache, track1, c, View(v));
      var v1 := v.(cache := Inserted(v.cache, track1, c, PATH_CACHE_SIZE));
      assert View(v1) == View(v);
      WalkDownLive(v1, c, tokens[1..], track1);
    }
  }

  lemma InsertedLive(cache: Cache<Bytes, nat>, key: Bytes, h: nat, t: Tree)
    requires LiveCache(cache, t) && h in t
    ensures LiveCache(Inserted(cache, key, h, PATH_CACHE_SIZE), t)
  {
    ApplyLive(cache, InsertOp(key, h), t);
  }

  /** A lookup in a cache of live handles is not stale, and caches live handles only. */
  lemma FindLive(v: Volume, cs: Path)
    requires v.entries.Keys <= v.disk.m.Keys && IsTree(View(v)) && LiveCache(v.cache, View(v))
    ensures !Stale(v, cs)
    ensures var w := FindHandle(v, cs).1; w == v.(cache := w.cache) && LiveCache(w.cache, View(v))
  {
    RootInTree(View(v));
    assert View(v).Keys == v.disk.m.Keys;
    SearchLive(v.cache, cs, View(v));
    var (hit, cache) := SearchCached(v.cache, cs);
    hide IsTree;
    hide LiveCache;
    hide SearchCached;
    hide WalkDown;
    hide Inserted;
    if hit.Some? {
      var v1 := v.(cache := cache);
      assert View(v1) == View(v);
      if |hit.value.1| <= |cs| {
        WalkDownLive(v1, hit.value.0, cs[|hit.value.1|..], PathString(hit.value.1));
      }
    } else {
      InsertedLive(cache, [SEPARATOR], ROOT_HANDLE, View(v));
      var v1 := v.(cache := Inserted(cache, [SEPARATOR], ROOT_HANDLE, PATH_CACHE_SIZE));
      assert View(v1) == View(v);
      WalkDownLive(v1, ROOT_HANDLE, cs, []);
    }
  }

  lemma LiveLater(cache: Cache<Bytes, nat>, t: Tree, u: Tree)
    requires LiveCache(cache, t) && t.Keys <= u.Keys
    ensures LiveCache(cache, u)
  {
  }

  lemma StepCache(v: Volume, op: VOp)
    requires v.entries.Keys <= v.disk.m.Keys && Asks(v.entries.Keys, op)
    ensures op.ReinitOp? ==> VStep(v, op).1.cache == []
    ensures !op.FindOp? && !op.ReinitOp? ==> VStep(v, op).1.cache == v.cache
    ensures op.FindOp? ==> VStep(v, op).1.cache == FindHandle(v, ComponentsOf(op.path)).1.cache
  {
    hide FindHandle;
    hide Flushed;
    hide Mutated;
    hide MutationStatus;
    hide CanAdd;
    hide ValidName;
    hide WithoutHandle;
    hide Stored;
    hide Dropped;
    hide GetProp;
  }

  lemma ModelGrows(t: Model, op: VOp, hint: bool)
    requires t.held <= t.tree.Keys && Asks(t.held, op) && !op.UnlinkOp?
    ensures t.tree.Keys <= ModelStep(t, op, hint).1.tree.Keys
  {
    hide ModelFind;
    hide Mutated;
    hide ModelStatus;
    hide ValidName;
    hide GetProp;
  }

  lemma StepLive(v: Volume, t: Model, op: VOp, now: int)
    requires V.Refines(v, t, now) && now <= op.now && !op.UnlinkOp? && LiveCache(v.cache, View(v))
    requires v.entries.Keys <= v.disk.m.Keys && t.held <= t.tree.Keys && t.held == v.entries.Keys && Guard(v, t, op)
    requires Asks(v.entries.Keys, op)
    ensures LiveCache(VStep(v, op).1.cache, View(VStep(v, op).1))
    ensures op.FindOp? ==> !Stale(v, ComponentsOf(op.path))
  {
    hide *;
    var w, u := VStep(v, op).1, ModelStep(t, op, Hint(v, op)).1;
    RefinesGives(v, t, now);
    StepRefines(v, t, op, now);
    AgreeGives(v, t, op);
    RefinesGives(w, u, op.now);
    ModelGrows(t, op, Hint(v, op));
    StepCache(v, op);
    if op.FindOp? {
      FindLive(v, ComponentsOf(op.path));
      LiveLater(FindHandle(v, ComponentsOf(op.path)).1.cache, View(v), View(w));
    } else if op.ReinitOp? {
      NothingCached(View(w));
    } else {
      LiveLater(v.cache, View(v), View(w));
    }
  }

  lemma NothingCached(t: Tree)
    ensures LiveCache([], t)
  {
  }

  /** Every lookup of the run finds what the walk in the plain tree finds at that point. */
  ghost predicate LookupsExact(v: Volume, t: Model, ops: seq<VOp>, now: int)
    requires Runs(v, t, ops, now)
    decreases |ops|
  {
    ops == [] ||
    (&& (ops[0].FindOp? ==> VStep(v, ops[0]).0 == FoundIs(Walk(t.tree, ROOT_HANDLE, ComponentsOf(ops[0].path))))
     && LookupsExact(VStep(v, ops[0]).1, ModelStep(t, ops[0], Hint(v, ops[0])).1, ops[1..], ops[0].now))
  }

  lemma FindIsExact(v: Volume, t: Model, op: VOp, now: int)
    requires V.Refines(v, t, now) && now <= op.now && op.FindOp? && !Stale(v, ComponentsOf(op.path))
    requires v.entries.Keys <= v.disk.m.Keys
    ensures VStep(v, op).0 == FoundIs(Walk(t.tree, ROOT_HANDLE, ComponentsOf(op.path)))
  {
    V.RefinesLater(v, t, now, op.now);
    hide V.Refines;
    hide Walk;
    hide Stale;
    hide FindEntry;
    FindRefines(v, t, op.path, op.now);
  }

  /** Over every run without unlinks, from a cache of live handles, lookups by path are exact. */
  lemma {:induction false} LookupsExactUntilUnlink(v: Volume, t: Model, ops: seq<VOp>, now: int)
    requires V.Refines(v, t, now) && Runs(v, t, ops, now) && LiveCache(v.cache, View(v))
    requires forall i :: 0 <= i < |ops| ==> !ops[i].UnlinkOp?
    ensures LookupsExact(v, t, ops, now)
    decreases |ops|
  {
    hide *;
    if ops == [] {
      NoLookups(v, t, now);
    } else {
      RunsHead(v, t, ops, now);
      RunUnfolds(v, t, ops, now);
      StepLive(v, t, ops[0], now);
      if ops[0].FindOp? {
        FindIsExact(v, t, ops[0], now);
      }
      var w, u := VStep(v, ops[0]).1, ModelStep(t, ops[0], Hint(v, ops[0])).1;
      assert forall i :: 0 <= i < |ops[1..]| ==> ops[1..][i] == ops[i + 1];
      LookupsExactUntilUnlink(w, u, ops[1..], ops[0].now);
      LookupsJoin(v, t, ops, now);
    }
  }

  lemma NoLookups(v: Volume, t: Model, now: int)
    requires Runs(v, t, [], now)
    ensures LookupsExact(v, t, [], now)
  {
  }

  lemma RunsHead(v: Volume, t: Model, ops: seq<VOp>, now: int)
    requires Runs(v, t, ops, now) && ops != []
    ensures v.entries.Keys <= v.disk.m.Keys && t.held <= t.tree.Keys && t.held == v.entries.Keys
    ensures now <= ops[0].now && Guard(v, t, ops[0]) && Asks(v.entries.Keys, ops[0]) && Asks(t.held, ops[0])
    ensures Runs(VStep(v, ops[0]).1, ModelStep(t, ops[0], Hint(v, ops[0])).1, ops[1..], ops[0].now)
  {
    hide VStep;
    hide ModelStep;
    hide Hint;
  }

  lemma LookupsJoin(v: Volume, t: Model, ops: seq<VOp>, now: int)
    requires Runs(v, t, ops, now) && ops != []
    requires v.entries.Keys <= v.disk.m.Keys && t.held <= t.tree.Keys && Asks(v.entries.Keys, ops[0])
               && Asks(t.held, ops[0])
    requires ops[0].FindOp? ==> VStep(v, ops[0]).0 == FoundIs(Walk(t.tree, ROOT_HANDLE, ComponentsOf(ops[0].path)))
    requires Runs(VStep(v, ops[0]).1, ModelStep(t, ops[0], Hint(v, ops[0])).1, ops[1..], ops[0].now)
    requires LookupsExact(VStep(v, ops[0]).1, ModelStep(t, ops[0], Hint(v, ops[0])).1, ops[1..], ops[0].now)
    ensures LookupsExact(v, t, ops, now)
  {
    hide VStep;
    hide ModelStep;
    hide Hint;
    hide Walk;
  }
}
