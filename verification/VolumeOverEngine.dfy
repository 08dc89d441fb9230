// A volume over the engine itself: the saves, removals and keys that each operation of a volume
// asks of the engine are ones the engine serves, so that the tree is what the engine's loads
// give back (lib/ondisk/Volume_p.hpp over lib/ondisk/StorageEngine.hpp).

module VolumeOverEngine {
  import opened Wrappers
  import opened Serialization
  import opened Properties
  import opened Records
  import opened LogDevices
  import opened Engines
  import E = EngineRuns
  import X = Extents
  import opened Paths
  import opened Volumes
  import opened PathCaches
  import V = VolumeRuns
  import opened VolumeRefinement

  // ---------------------------------------------------------------------------
  // Records stay in the ranges of their C++ types

  ghost predicate Savable(r: Rec) {
    TypedRec(r) && Bijective(r.children) && r.key != INVALID_HANDLE
  }

  ghost predicate AllSavable(v: Volume) {
    (forall h <- v.disk.m :: Savable(v.disk.m[h])) && (forall h <- v.entries :: Savable(v.entries[h].rec))
  }

  /** Arguments in the ranges of their C++ types; the time of an expiration does not overflow. */
  predicate TypedOp(op: VOp) {
    op.MutateOp? ==>
      match op.m
      case SetP(_, value) => Typed(value)
      case ExpireP(_, ms) => -(TWO64 as int) <= 2 * (op.now + ms) < TWO64
      case _ => true
  }

  lemma CleanupSavable(r: Rec, now: int)
    requires Savable(r)
    ensures Savable(Cleanup(r, now))
  {
  }

  lemma MutatedSavable(r: Rec, op: VOp)
    requires Savable(r) && op.MutateOp? && TypedOp(op)
    ensures Savable(Mutated(r, op.m, op.now))
  {
    hide Typed;
  }

  lemma ChildSavable(c: nat, h: nat, name: Bytes)
    requires INVALID_HANDLE < c < TWO64 && h < TWO64
    ensures Savable(NewRec(c, name).(parent := h))
  {
  }

  lemma LinkedSavable(r: Rec, name: Bytes, c: nat)
    requires Savable(r) && CanAdd(r.children, name, c) && c < TWO64
    ensures Savable(V.LinkedEntry(r, name, c).rec)
  {
    hide Typed;
  }

  lemma UnlinkedSavable(r: Rec, c: nat)
    requires Savable(r)
    ensures Savable(V.UnlinkedEntry(r, c).rec)
  {
    hide Typed;
  }

  lemma OpenSavable(v: Volume, h: nat, now: int)
    requires AllSavable(v)
    ensures AllSavable(OpenHandle(v, h, now).1)
  {
    hide Savable;
    if h in v.disk.m {
      CleanupSavable(v.disk.m[h], now);
    }
    hide Cleanup;
  }

  /** Only the records count. */
  lemma SameRecords(v: Volume, w: Volume)
    requires AllSavable(v) && w.disk.m == v.disk.m && w.entries == v.entries
    ensures AllSavable(w)
  {
    hide Savable;
  }

  lemma FindSavable(v: Volume, t: Model, path: Bytes, now: int)
    requires V.Refines(v, t, now) && AllSavable(v)
    ensures AllSavable(FindEntry(v, path, now).1)
  {
    hide *;
    var cs := ComponentsOf(path);
    RefinesGives(v, t, now);
    ComponentsAreNames(path);
    FindHandleIsWalk(v, cs);
    FindUnfolds(v, path, now);
    var (found, v1) := FindHandle(v, cs);
    SameRecords(v, v1);
    if found.Some? {
      OpenSavable(v1, found.value, now);
    }
  }

  lemma LinkedAllSavable(v: Volume, w: Volume, h: nat, name: Bytes)
    requires AllSavable(v) && h in v.entries && CanAdd(v.entries[h].rec.children, name, v.disk.counter)
    requires ROOT_HANDLE < v.disk.counter && v.disk.counter + 1 < TWO64
    requires v.entries[h].rec.key == h
    requires w.disk.m == v.disk.m[v.disk.counter := NewRec(v.disk.counter, name).(parent := h)]
    requires w.entries == v.entries[h := V.LinkedEntry(v.entries[h].rec, name, v.disk.counter)]
    ensures AllSavable(w)
  {
    hide Savable;
    hide CanAdd;
    HandleTyped(v.entries[h].rec);
    ChildSavable(v.disk.counter, h, name);
    LinkedSavable(v.entries[h].rec, name, v.disk.counter);
    hide V.LinkedEntry;
  }

  lemma LinkSavable(v: Volume, t: Model, h: nat, name: Bytes, saved: bool, now: int)
    requires V.Refines(v, t, now) && AllSavable(v) && v.disk.counter + 1 < TWO64
    ensures AllSavable(Link(v, h, name, saved, now).1)
  {
    hide *;
    RefinesGives(v, t, now);
    var w := Link(v, h, name, saved, now).1;
    if Link(v, h, name, saved, now).0.Ok? {
      var c := v.disk.counter;
      V.LinkAddsLeaf(v, h, name, saved, now);
      V.FreshHandle(v, h, name);
      V.LinkResult(v, h, name, saved, now);
      V.NewRecStored(v.disk.(counter := c + 1), c, h, name, now);
      RootBelow(v);
      LinkedAllSavable(v, w, h, name);
    } else {
      V.FailedLinkChangesNothing(v, h, name, saved, now);
      SameRecords(v, w);
    }
  }

  lemma RootBelow(v: Volume)
    requires Sound(v)
    ensures v.disk.counter > ROOT_HANDLE
  {
    assert ROOT_HANDLE in View(v);
    hide CacheOk;
  }

  lemma HandleTyped(r: Rec)
    requires Savable(r)
    ensures INVALID_HANDLE < r.key < TWO64
  {
  }

  lemma ReinitSavable(v: Volume, now: int)
    requires AllSavable(v)
    ensures AllSavable(Reinitialize(v, now))
  {
    hide Savable;
    forall h | h in v.entries ensures Savable(Cleanup(v.entries[h].rec, now)) {
      CleanupSavable(v.entries[h].rec, now);
    }
    hide Cleanup;
  }

  lemma ReleaseSavable(v: Volume, h: nat, now: int)
    requires AllSavable(v) && h in v.entries && v.entries[h].rec.key == h
    ensures AllSavable(Release(v, h, now))
  {
    hide Savable;
    V.ReleaseIs(v, h, now);
    CleanupSavable(v.entries[h].rec, now);
    hide Release;
    hide Cleanup;
  }

  lemma UnlinkSavable(v: Volume, h: nat, name: Bytes)
    requires AllSavable(v)
    ensures AllSavable(Unlink(v, h, name).1)
  {
    hide Savable;
    UnlinkStatus(v, h, name);
    if Unlink(v, h, name).0.Ok? {
      V.UnlinkResult(v, h, name);
      UnlinkedSavable(v.entries[h].rec, v.entries[h].rec.children[name]);
      hide Unlink;
      hide V.UnlinkedEntry;
    }
  }

  lemma MutateSavable(v: Volume, op: VOp)
    requires AllSavable(v) && op.MutateOp? && TypedOp(op) && op.h in v.entries
    ensures AllSavable(Mutate(v, op.h, op.m, op.now))
  {
    hide Savable;
    MutatedSavable(v.entries[op.h].rec, op);
    hide Mutated;
    hide MutationStatus;
  }

  /** Whatever a volume does, every record it stores or holds open can be saved. */
  lemma StepSavable(v: Volume, t: Model, op: VOp, now: int)
    requires V.Refines(v, t, now) && now <= op.now && AllSavable(v) && TypedOp(op)
    requires v.entries.Keys <= v.disk.m.Keys && t.held <= t.tree.Keys && t.held == v.entries.Keys
    requires VolumeRefinement.Guard(v, t, op) && Asks(v.entries.Keys, op)
    ensures AllSavable(VStep(v, op).1)
  {
    hide AllSavable;
    hide V.Refines;
    hide TypedOp;
    hide FindEntry;
    hide Link;
    hide Unlink;
    hide Release;
    hide Reinitialize;
    hide Mutate;
    hide MutationStatus;
    hide Lapsed;
    hide GetProp;
    V.RefinesLater(v, t, now, op.now);
    CounterIs(v, t, op.now);
    match op {
      case FindOp(path, n) => FindSavable(v, t, path, n);
      case MutateOp(h, m, n) => MutateSavable(v, op);
      case LinkOp(h, name, saved, n) => LinkSavable(v, t, h, name, saved, n);
      case UnlinkOp(h, name, n) => UnlinkSavable(v, h, name);
      case ReleaseOp(h, n) => OpenKey(v, t, h, n); ReleaseSavable(v, h, n);
      case ReinitOp(n) => ReinitSavable(v, n);
      case _ =>
    }
  }

  lemma CounterIs(v: Volume, t: Model, now: int)
    requires V.Refines(v, t, now)
    ensures v.disk.counter == t.counter
  {
    hide V.Inv;
  }

  lemma OpenKey(v: Volume, t: Model, h: nat, now: int)
    requires V.Refines(v, t, now) && h in v.entries
    ensures v.entries[h].rec.key == h
  {
    RefinesGives(v, t, now);
    assert View(v)[h] == v.entries[h].rec;
    hide V.Refines;
    hide CacheOk;
  }

  // ---------------------------------------------------------------------------
  // What a volume asks of the engine

  predicate SavesRecord(op: E.Op, r: Rec, now: int) {
    op.SaveOp? && op.rec == r && op.now == now
  }

  /** The dirty handles, each once, in the order in which the table of open entries is walked. */
  ghost predicate DirtyWalk(v: Volume, order: seq<nat>) {
    && (forall h :: h in order <==> h in v.entries && v.entries[h].dirty)
    && (forall i, j :: 0 <= i < j < |order| ==> order[i] != order[j])
  }

  predicate SavesInTurn(v: Volume, order: seq<nat>, ops: seq<E.Op>, now: int) {
    |order| <= |ops| && forall i :: 0 <= i < |order| ==>
        order[i] in v.entries && SavesRecord(ops[i], v.entries[order[i]].rec, now)
  }

  /** Every dirty entry is saved, and then the engine is closed and opened again. */
  ghost predicate FlushesAndReopens(v: Volume, ops: seq<E.Op>, now: int) {
    && ops != [] && ops[|ops| - 1].ReopenOp?
    && exists order :: DirtyWalk(v, order) && |order| == |ops| - 1 && SavesInTurn(v, order, ops, now)
  }

  /** The calls into the engine by which an operation changes it, loads left out. */
  ghost predicate Issues(v: Volume, op: VOp, ops: seq<E.Op>)
    requires v.entries.Keys <= v.disk.m.Keys && Asks(v.entries.Keys, op)
  {
    match op
    case LinkOp(h, name, saved, now) =>
      var (status, w) := Link(v, h, name, saved, now);
      if status.Ok? then
        |ops| == 2 && ops[0] == E.NewKeyOp && SavesRecord(ops[1], NewRec(v.disk.counter, name).(parent := h), now)
      else if w.disk.counter != v.disk.counter then ops == [E.NewKeyOp]
      else ops == []
    case UnlinkOp(h, name, _) =>
      if Unlink(v, h, name).0.Ok? then
        h in v.entries && name in v.entries[h].rec.children && ops == [E.RemoveOp(v.entries[h].rec.children[name])]
      else ops == []
    case ReleaseOp(h, now) =>
      if v.entries[h].dirty then |ops| == 1 && SavesRecord(ops[0], v.entries[h].rec, now) else ops == []
    case ReinitOp(now) => FlushesAndReopens(v, ops, now)
    case _ => ops == []
  }

  /** On the map the engine refines, the calls do to the store what the operation does. */
  ghost predicate SameStore(v: Volume, w: Volume, ops: seq<E.Op>) {
    E.SpecRun(v.disk, ops).1 == w.disk
  }

  lemma RunNone(s: E.Spec)
    ensures E.SpecRun(s, []).1 == s
  {
  }

  lemma RunOne(s: E.Spec, op: E.Op)
    ensures E.SpecRun(s, [op]).1 == E.SpecStep(s, op).1
  {
    assert [op][1..] == [];
  }

  lemma RunTwo(s: E.Spec, a: E.Op, b: E.Op)
    ensures E.SpecRun(s, [a, b]).1 == E.SpecStep(E.SpecStep(s, a).1, b).1
  {
    assert [a, b][1..] == [b];
    RunOne(E.SpecStep(s, a).1, b);
  }

  lemma SaveIsStored(s: E.Spec, op: E.Op, r: Rec, now: int)
    requires SavesRecord(op, r, now)
    ensures E.SpecStep(s, op).1 == Stored(s, r, now)
  {
  }

  lemma LinkIssued(v: Volume, t: Model, h: nat, name: Bytes, saved: bool, now: int, ops: seq<E.Op>)
    requires V.Refines(v, t, now) && Issues(v, LinkOp(h, name, saved, now), ops) && v.entries.Keys <= v.disk.m.Keys
    ensures SameStore(v, Link(v, h, name, saved, now).1, ops)
  {
    LinkIssues(v, h, name, saved, now, ops);
    hide *;
    RefinesGives(v, t, now);
    var (status, w) := Link(v, h, name, saved, now);
    if status.Ok? {
      V.LinkAddsLeaf(v, h, name, saved, now);
      V.FreshHandle(v, h, name);
      V.LinkResult(v, h, name, saved, now);
      RunTwo(v.disk, ops[0], ops[1]);
      NewKeyStep(v.disk);
      SaveIsStored(v.disk.(counter := v.disk.counter + 1), ops[1], NewRec(v.disk.counter, name).(parent := h), now);
    } else {
      V.FailedLinkChangesNothing(v, h, name, saved, now);
      RunNone(v.disk);
      RunOne(v.disk, E.NewKeyOp);
      NewKeyStep(v.disk);
    }
    SameStoreIs(v, w, ops);
  }

  lemma LinkIssues(v: Volume, h: nat, name: Bytes, saved: bool, now: int, ops: seq<E.Op>)
    requires v.entries.Keys <= v.disk.m.Keys && Issues(v, LinkOp(h, name, saved, now), ops)
    ensures var (status, w) := Link(v, h, name, saved, now);
            if status.Ok? then
              |ops| == 2 && ops == [ops[0], ops[1]] && ops[0] == E.NewKeyOp
              && SavesRecord(ops[1], NewRec(v.disk.counter, name).(parent := h), now)
            else ops == if w.disk.counter != v.disk.counter then [E.NewKeyOp] else []
  {
    hide Link;
  }

  lemma NewKeyStep(s: E.Spec)
    ensures E.SpecStep(s, E.NewKeyOp).1 == s.(counter := s.counter + 1)
  {
  }

  lemma SameStoreIs(v: Volume, w: Volume, ops: seq<E.Op>)
    ensures SameStore(v, w, ops) == (E.SpecRun(v.disk, ops).1 == w.disk)
  {
  }

  lemma UnlinkIssued(v: Volume, h: nat, name: Bytes, now: int, ops: seq<E.Op>)
    requires v.entries.Keys <= v.disk.m.Keys && Issues(v, UnlinkOp(h, name, now), ops)
    ensures SameStore(v, Unlink(v, h, name).1, ops)
  {
    UnlinkStatus(v, h, name);
    RunNone(v.disk);
    if Unlink(v, h, name).0.Ok? {
      V.UnlinkResult(v, h, name);
      RunOne(v.disk, ops[0]);
    }
  }

  lemma ReleaseIssued(v: Volume, h: nat, now: int, ops: seq<E.Op>)
    requires v.entries.Keys <= v.disk.m.Keys && h in v.entries && Issues(v, ReleaseOp(h, now), ops)
    ensures SameStore(v, Release(v, h, now), ops)
  {
    RunNone(v.disk);
    if v.entries[h].dirty {
      assert ops == [ops[0]];
      RunOne(v.disk, ops[0]);
      SaveIsStored(v.disk, ops[0], v.entries[h].rec, now);
    }
  }

  /** The store once the records of `order` have been saved. */
  ghost function SavedInTurn(s: E.Spec, v: Volume, order: seq<nat>, now: int): E.Spec
    requires forall h :: h in order ==> h in v.entries
  {
    s.(m := s.m + map h | h in order :: Cleanup(v.entries[h].rec, now))
  }

  lemma {:induction false} FlushRun(s: E.Spec, v: Volume, order: seq<nat>, ops: seq<E.Op>, now: int)
    requires |ops| == |order| + 1 && ops[|order|].ReopenOp? && SavesInTurn(v, order, ops, now)
    requires forall h <- v.entries :: v.entries[h].rec.key == h
    requires forall i, j :: 0 <= i < j < |order| ==> order[i] != order[j]
    ensures forall h :: h in order ==> h in v.entries
    ensures E.SpecRun(s, ops).1 == SavedInTurn(s, v, order, now)
    decreases |ops|
  {
    hide Cleanup;
    if order == [] {
      assert ops == [ops[0]];
      RunOne(s, ops[0]);
      assert SavedInTurn(s, v, order, now).m == s.m;
    } else {
      var h, more := order[0], order[1..];
      assert SavesRecord(ops[0], v.entries[h].rec, now);
      SavesNext(v, order, ops, now);
      var s1 := E.SpecStep(s, ops[0]).1;
      hide SavesInTurn;
      assert s1 == s.(m := s.m[h := Cleanup(v.entries[h].rec, now)]);
      hide SavesRecord;
      hide E.SpecStep;
      FlushRun(s1, v, more, ops[1..], now);
      assert order == [h] + more;
      hide E.SpecRun;
      SavedFirst(s, v, h, more, now);
    }
  }

  lemma SavesNext(v: Volume, order: seq<nat>, ops: seq<E.Op>, now: int)
    requires SavesInTurn(v, order, ops, now) && order != []
    ensures SavesInTurn(v, order[1..], ops[1..], now)
  {
    assert forall i :: 0 <= i < |order[1..]| ==> order[1..][i] == order[i + 1] && ops[1..][i] == ops[i + 1];
  }

  lemma SavedFirst(s: E.Spec, v: Volume, h: nat, more: seq<nat>, now: int)
    requires h in v.entries && forall x :: x in more ==> x in v.entries
    ensures forall x :: x in [h] + more ==> x in v.entries
    ensures SavedInTurn(s.(m := s.m[h := Cleanup(v.entries[h].rec, now)]), v, more, now)
              == SavedInTurn(s, v, [h] + more, now)
  {
    hide Cleanup;
    var after := SavedInTurn(s.(m := s.m[h := Cleanup(v.entries[h].rec, now)]), v, more, now);
    forall k | k in after.m ensures k in s.m || k in [h] + more {
    }
    assert after.m == SavedInTurn(s, v, [h] + more, now).m;
  }

  lemma FlushedIs(v: Volume, order: seq<nat>, now: int)
    requires DirtyWalk(v, order)
    ensures forall h :: h in order ==> h in v.entries
    ensures SavedInTurn(v.disk, v, order, now) == Flushed(v, now)
  {
    hide Cleanup;
    assert SavedInTurn(v.disk, v, order, now).m == Flushed(v, now).m;
  }

  lemma FlushIssued(v: Volume, now: int, ops: seq<E.Op>)
    requires FlushesAndReopens(v, ops, now) && forall h <- v.entries :: v.entries[h].rec.key == h
    ensures E.SpecRun(v.disk, ops).1 == Flushed(v, now)
  {
    var order :| DirtyWalk(v, order) && |order| == |ops| - 1 && SavesInTurn(v, order, ops, now);
    FlushedIs(v, order, now);
    assert forall i, j :: 0 <= i < j < |order| ==> order[i] != order[j];
    hide DirtyWalk;
    hide SavesInTurn;
    hide Flushed;
    hide SavedInTurn;
    hide E.SpecRun;
    FlushRun(v.disk, v, order, ops, now);
  }

  lemma ReinitIssued(v: Volume, t: Model, now: int, ops: seq<E.Op>)
    requires V.Refines(v, t, now) && v.entries.Keys <= v.disk.m.Keys && Issues(v, ReinitOp(now), ops)
    ensures SameStore(v, Reinitialize(v, now), ops)
  {
    hide V.Refines;
    hide FlushesAndReopens;
    hide Flushed;
    hide E.SpecRun;
    forall h | h in v.entries ensures v.entries[h].rec.key == h {
      OpenKey(v, t, h, now);
    }
    FlushIssued(v, now, ops);
  }

  lemma StepIssued(v: Volume, t: Model, op: VOp, now: int, ops: seq<E.Op>)
    requires V.Refines(v, t, now) && now <= op.now && v.entries.Keys <= v.disk.m.Keys && Asks(v.entries.Keys, op)
               && Issues(v, op, ops)
    ensures SameStore(v, VStep(v, op).1, ops)
  {
    V.RefinesLater(v, t, now, op.now);
    match op {
      case LinkOp(h, name, saved, n) => LinkIssued(v, t, h, name, saved, n, ops);
      case UnlinkOp(h, name, n) => UnlinkIssued(v, h, name, n, ops);
      case ReleaseOp(h, n) => ReleaseIssued(v, h, n, ops);
      case ReinitOp(n) => ReinitIssued(v, t, n, ops);
      case FindOp(path, n) => FindKeepsStore(v, t, path, n); RunNone(v.disk);
      case _ => hide V.Refines; RunNone(v.disk);
    }
  }

  lemma FindKeepsStore(v: Volume, t: Model, path: Bytes, now: int)
    requires V.Refines(v, t, now)
    ensures FindEntry(v, path, now).1.disk == v.disk
  {
    hide *;
    var cs := ComponentsOf(path);
    RefinesGives(v, t, now);
    ComponentsAreNames(path);
    FindHandleIsWalk(v, cs);
    FindUnfolds(v, path, now);
    var (found, v1) := FindHandle(v, cs);
    if found.Some? {
      V.OpenHandleIs(v1, found.value, now);
    }
  }

  // ---------------------------------------------------------------------------
  // What the engine asks of its callers, a volume gives

  ghost predicate Callable(op: E.Op) {
    (op.SaveOp? ==> Savable(op.rec)) && (op.RemoveOp? ==> op.key != ROOT_HANDLE)
  }

  lemma RootStays(v: Volume, t: Model, h: nat, name: Bytes, now: int)
    requires V.Refines(v, t, now) && h in v.entries && name in v.entries[h].rec.children
    ensures v.entries[h].rec.children[name] != ROOT_HANDLE
  {
    RefinesGives(v, t, now);
    assert View(v)[h] == v.entries[h].rec;
    hide V.Refines;
    V.RootNotChild(View(v), h, name);
  }

  lemma LinkCallable(v: Volume, t: Model, h: nat, name: Bytes, saved: bool, now: int, ops: seq<E.Op>)
    requires V.Refines(v, t, now) && AllSavable(v) && v.disk.counter + 1 < TWO64 && v.entries.Keys <= v.disk.m.Keys
    requires Issues(v, LinkOp(h, name, saved, now), ops)
    ensures forall i :: 0 <= i < |ops| ==> Callable(ops[i])
  {
    hide *;
    LinkIssues(v, h, name, saved, now, ops);
    RefinesGives(v, t, now);
    RootBelow(v);
    if Link(v, h, name, saved, now).0.Ok? {
      V.LinkAddsLeaf(v, h, name, saved, now);
      V.FreshHandle(v, h, name);
      EntrySavable(v, h);
      HandleTyped(v.entries[h].rec);
      ChildSavable(v.disk.counter, h, name);
      SaveCallable(ops[1], NewRec(v.disk.counter, name).(parent := h), now);
    }
    NewKeyCallable();
  }

  lemma EntrySavable(v: Volume, h: nat)
    requires AllSavable(v) && h in v.entries
    ensures Savable(v.entries[h].rec)
  {
    hide Savable;
  }

  lemma SaveCallable(op: E.Op, r: Rec, now: int)
    requires SavesRecord(op, r, now) && Savable(r)
    ensures Callable(op)
  {
    hide Savable;
  }

  lemma NewKeyCallable()
    ensures Callable(E.NewKeyOp)
  {
  }

  lemma UnlinkCallable(v: Volume, t: Model, h: nat, name: Bytes, now: int, ops: seq<E.Op>)
    requires V.Refines(v, t, now) && v.entries.Keys <= v.disk.m.Keys && Issues(v, UnlinkOp(h, name, now), ops)
    ensures forall i :: 0 <= i < |ops| ==> Callable(ops[i])
  {
    hide V.Refines;
    hide Unlink;
    if h in v.entries && name in v.entries[h].rec.children {
      RootStays(v, t, h, name, now);
    }
  }

  lemma ReleaseCallable(v: Volume, h: nat, now: int, ops: seq<E.Op>)
    requires AllSavable(v) && v.entries.Keys <= v.disk.m.Keys && h in v.entries && Issues(v, ReleaseOp(h, now), ops)
    ensures forall i :: 0 <= i < |ops| ==> Callable(ops[i])
  {
    hide Savable;
  }

  /** Every record a volume saves is one the engine can save, and it never removes the root. */
  lemma IssuedCallable(v: Volume, t: Model, op: VOp, now: int, ops: seq<E.Op>)
    requires V.Refines(v, t, now) && now <= op.now && AllSavable(v)
    requires op.LinkOp? ==> v.disk.counter + 1 < TWO64
    requires v.entries.Keys <= v.disk.m.Keys && Asks(v.entries.Keys, op) && Issues(v, op, ops)
    ensures forall i :: 0 <= i < |ops| ==> Callable(ops[i])
  {
    hide V.Refines;
    hide AllSavable;
    hide Callable;
    V.RefinesLater(v, t, now, op.now);
    match op {
      case LinkOp(h, name, saved, n) => hide Issues; LinkCallable(v, t, h, name, saved, n, ops);
      case UnlinkOp(h, name, n) => hide Issues; UnlinkCallable(v, t, h, name, n, ops);
      case ReleaseOp(h, n) => hide Issues; ReleaseCallable(v, h, n, ops);
      case ReinitOp(n) => hide FlushesAndReopens; FlushCallable(v, n, ops);
      case _ =>
    }
  }

  lemma FlushCallable(v: Volume, now: int, ops: seq<E.Op>)
    requires AllSavable(v) && FlushesAndReopens(v, ops, now)
    ensures forall i :: 0 <= i < |ops| ==> Callable(ops[i])
  {
    hide Savable;
    var order :| DirtyWalk(v, order) && |order| == |ops| - 1 && SavesInTurn(v, order, ops, now);
    forall i | 0 <= i < |ops| ensures Callable(ops[i]) {
      if i < |order| {
        assert SavesRecord(ops[i], v.entries[order[i]].rec, now);
      } else {
        assert i == |ops| - 1;
      }
    }
  }

  /** What is left to ask of the environment: room, some walk of the containers, options for an open. */
  ghost predicate Environment(e: Engine, op: E.Op)
    requires e.dev.blockSize > 0
  {
    match op
    case SaveOp(rec, now, orders) => AreOrders(orders, Cleanup(rec, now))
        && Room(e.dev, |PrintRec(Cleanup(rec, now), orders)|)
    case NewKeyOp => e.counter + 1 < TWO64
    case ReopenOp(_, _, _, _, _) => E.Asked(e, op) && X.KeepsOwnBlocks(e, op)
    case _ => true
  }

  lemma EnvironmentAsked(e: Engine, op: E.Op)
    requires e.dev.blockSize > 0 && Callable(op) && Environment(e, op)
    ensures E.Asked(e, op) && X.KeepsOwnBlocks(e, op)
  {
    hide PrintRec;
    hide X.OwnBlocks;
    hide NeedsCompaction;
  }

  /** The engine is called, call after call, in an environment that lets it. */
  ghost predicate Served(e: Engine, s: E.Spec, ops: seq<E.Op>)
    requires E.Refines(e, s) && X.Tidy(e) && forall i :: 0 <= i < |ops| ==> Callable(ops[i])
    decreases |ops|
  {
    ops == [] ||
    (&& Environment(e, ops[0])
     && (EnvironmentAsked(e, ops[0]); X.TidyStep(e, s, ops[0]);
         Served(E.Step(e, ops[0]).1, E.SpecStep(s, ops[0]).1, ops[1..])))
  }

  lemma {:induction false} ServedRuns(e: Engine, s: E.Spec, ops: seq<E.Op>)
    requires E.Refines(e, s) && X.Tidy(e) && (forall i :: 0 <= i < |ops| ==> Callable(ops[i])) && Served(e, s, ops)
    ensures X.TidyRuns(e, s, ops)
    decreases |ops|
  {
    assert E.Inv(e);
    hide E.Step;
    hide E.SpecStep;
    hide E.Inv;
    hide E.Represents;
    hide E.Asked;
    hide X.KeepsOwnBlocks;
    hide X.Tidy;
    hide Environment;
    hide Callable;
    if ops != [] {
      EnvironmentAsked(e, ops[0]);
      X.TidyStep(e, s, ops[0]);
      ServedRuns(E.Step(e, ops[0]).1, E.SpecStep(s, ops[0]).1, ops[1..]);
    }
  }

  /** The engine after the calls: it represents the map after the calls. */
  ghost function AfterCalls(e: Engine, s: E.Spec, ops: seq<E.Op>): (e1: Engine)
    requires E.Refines(e, s) && X.Tidy(e) && (forall i :: 0 <= i < |ops| ==> Callable(ops[i])) && Served(e, s, ops)
    ensures E.Refines(e1, E.SpecRun(s, ops).1) && X.Tidy(e1)
  {
    ServedRuns(e, s, ops);
    X.RunTidy(e, s, ops);
    E.RunRefines(e, s, ops);
    E.Run(e, s, ops).1
  }

  // ---------------------------------------------------------------------------
  // Both layers in step

  /** An engine, the volume over it, and the tree the volume shows. */
  datatype Layers = Layers(e: Engine, v: Volume, t: Model)

  ghost predicate InStep(x: Layers, now: int) {
    E.Refines(x.e, x.v.disk) && X.Tidy(x.e) && V.Refines(x.v, x.t, now) && AllSavable(x.v)
  }

  /** What the layers in step say of the keys in use. */
  lemma InStepKeys(x: Layers, now: int)
    requires InStep(x, now)
    ensures x.v.entries.Keys <= x.v.disk.m.Keys && x.t.held <= x.t.tree.Keys && x.t.held == x.v.entries.Keys
    ensures x.v.disk.counter == x.t.counter
  {
    hide *;
    InStepGives(x, now);
    RefinesGives(x.v, x.t, now);
  }

  /** A step of the volume that its caller may ask for, with the calls into the engine it issues. */
  ghost predicate StepAsked(x: Layers, op: VOp, calls: seq<E.Op>, now: int)
    requires InStep(x, now)
  {
    hide *;
    InStepKeys(x, now);
    now <= op.now && TypedOp(op) && VolumeRefinement.Guard(x.v, x.t, op)
    && Asks(x.v.entries.Keys, op) && Issues(x.v, op, calls)
  }

  lemma AskedGives(x: Layers, op: VOp, calls: seq<E.Op>, now: int)
    requires InStep(x, now) && StepAsked(x, op, calls, now)
    ensures x.v.entries.Keys <= x.v.disk.m.Keys && x.t.held <= x.t.tree.Keys && x.t.held == x.v.entries.Keys
    ensures now <= op.now && TypedOp(op) && VolumeRefinement.Guard(x.v, x.t, op)
    ensures Asks(x.v.entries.Keys, op) && Asks(x.t.held, op) && Issues(x.v, op, calls)
    ensures op.LinkOp? ==> x.v.disk.counter + 1 < TWO64
  {
    InStepKeys(x, now);
    hide InStep;
    hide TypedOp;
    hide Issues;
    hide Lapsed;
  }

  lemma AskedCallable(x: Layers, op: VOp, calls: seq<E.Op>, now: int)
    requires InStep(x, now) && StepAsked(x, op, calls, now)
    ensures E.Refines(x.e, x.v.disk) && X.Tidy(x.e) && forall i :: 0 <= i < |calls| ==> Callable(calls[i])
  {
    hide *;
    AskedGives(x, op, calls, now);
    InStepGives(x, now);
    IssuedCallable(x.v, x.t, op, now, calls);
  }

  /** And the environment lets the engine serve those calls. */
  ghost predicate StepServed(x: Layers, op: VOp, calls: seq<E.Op>, now: int)
    requires InStep(x, now)
  {
    hide *;
    StepAsked(x, op, calls, now) && (AskedCallable(x, op, calls, now); Served(x.e, x.v.disk, calls))
  }

  lemma ServedGives(x: Layers, op: VOp, calls: seq<E.Op>, now: int)
    requires InStep(x, now) && StepServed(x, op, calls, now)
    ensures StepAsked(x, op, calls, now)
    ensures E.Refines(x.e, x.v.disk) && X.Tidy(x.e) && forall i :: 0 <= i < |calls| ==> Callable(calls[i])
    ensures Served(x.e, x.v.disk, calls)
  {
    AskedCallable(x, op, calls, now);
    hide InStep;
    hide StepAsked;
    hide Callable;
    hide Served;
    hide E.Refines;
    hide X.Tidy;
  }

  ghost function EngineAfter(x: Layers, op: VOp, calls: seq<E.Op>, now: int): (e1: Engine)
    requires InStep(x, now) && StepServed(x, op, calls, now)
    ensures E.Refines(e1, E.SpecRun(x.v.disk, calls).1) && X.Tidy(e1)
  {
    hide *;
    ServedGives(x, op, calls, now);
    AfterCalls(x.e, x.v.disk, calls)
  }

  /** Each layer takes its own step: engine calls, volume operation, tree operation. */
  ghost function NextLayers(x: Layers, op: VOp, calls: seq<E.Op>, now: int): Layers
    requires InStep(x, now) && StepServed(x, op, calls, now)
  {
    hide *;
    ServedGives(x, op, calls, now);
    AskedGives(x, op, calls, now);
    Layers(EngineAfter(x, op, calls, now), VStep(x.v, op).1, ModelStep(x.t, op, Hint(x.v, op)).1)
  }

  /** After a step the layers still agree, and the volume answered as the tree. */
  lemma NextInStep(x: Layers, op: VOp, calls: seq<E.Op>, now: int)
    requires InStep(x, now) && StepServed(x, op, calls, now)
    ensures InStep(NextLayers(x, op, calls, now), op.now)
  {
    hide *;
    ServedGives(x, op, calls, now);
    AskedGives(x, op, calls, now);
    InStepGives(x, now);
    StepSavable(x.v, x.t, op, now);
    StepIssued(x.v, x.t, op, now, calls);
    VolumeRefinement.StepRefines(x.v, x.t, op, now);
    AgreeGives(x.v, x.t, op);
    SameStoreIs(x.v, VStep(x.v, op).1, calls);
    NextLayersIs(x, op, calls, now);
    InStepIs(NextLayers(x, op, calls, now), op.now);
  }

  lemma AgreeGives(v: Volume, t: Model, op: VOp)
    requires v.entries.Keys <= v.disk.m.Keys && t.held <= t.tree.Keys && Asks(v.entries.Keys, op) && Asks(t.held, op)
    requires Agree(v, t, op)
    ensures VStep(v, op).0 == ModelStep(t, op, Hint(v, op)).0
    ensures V.Refines(VStep(v, op).1, ModelStep(t, op, Hint(v, op)).1, op.now)
  {
    hide VStep;
    hide ModelStep;
    hide Hint;
    hide V.Refines;
  }

  lemma NextLayersIs(x: Layers, op: VOp, calls: seq<E.Op>, now: int)
    requires InStep(x, now) && StepServed(x, op, calls, now) && Asks(x.v.entries.Keys, op) && Asks(x.t.held, op)
    requires x.v.entries.Keys <= x.v.disk.m.Keys && x.t.held <= x.t.tree.Keys
    ensures NextLayers(x, op, calls, now)
         == Layers(EngineAfter(x, op, calls, now), VStep(x.v, op).1, ModelStep(x.t, op, Hint(x.v, op)).1)
  {
    hide InStep;
    hide StepServed;
    hide EngineAfter;
    hide VStep;
    hide ModelStep;
    hide Hint;
  }

  /** A run of which only each call and its environment are asked anything; the layers stay in step by themselves. */
  ghost predicate LayersRun(x: Layers, ops: seq<VOp>, calls: seq<seq<E.Op>>, now: int)
    requires |calls| == |ops| && InStep(x, now)
    decreases |ops|
  {
    hide *;
    ops == [] ||
    (&& StepServed(x, ops[0], calls[0], now)
     && (NextInStep(x, ops[0], calls[0], now);
         LayersRun(NextLayers(x, ops[0], calls[0], now), ops[1..], calls[1..], ops[0].now)))
  }

  /** Where the run ends. */
  ghost function LayersEnd(x: Layers, ops: seq<VOp>, calls: seq<seq<E.Op>>, now: int): Layers
    requires |calls| == |ops|
    decreases |ops|
  {
    hide *;
    if ops != [] && InStep(x, now) && StepServed(x, ops[0], calls[0], now) then
      LayersEnd(NextLayers(x, ops[0], calls[0], now), ops[1..], calls[1..], ops[0].now)
    else x
  }

  /** The run of the layers is a run of the volume against the tree, and ends with both in step. */
  lemma {:induction false} LayersStayInStep(x: Layers, ops: seq<VOp>, calls: seq<seq<E.Op>>, now: int)
    requires |calls| == |ops| && InStep(x, now) && LayersRun(x, ops, calls, now)
    ensures InStep(LayersEnd(x, ops, calls, now), LastTime(ops, now))
    ensures Runs(x.v, x.t, ops, now)
    ensures LayersEnd(x, ops, calls, now).v == RunVolume(x.v, x.t, ops, now).1
    ensures LayersEnd(x, ops, calls, now).t == RunModel(x.v, x.t, ops, now).1
    decreases |ops|
  {
    hide InStep;
    hide StepServed;
    hide StepAsked;
    hide NextLayers;
    hide VStep;
    hide ModelStep;
    hide Hint;
    hide E.Refines;
    hide X.Tidy;
    hide V.Refines;
    hide AllSavable;
    hide Issues;
    hide Served;
    hide Callable;
    hide VolumeRefinement.Guard;
    hide TypedOp;
    hide Runs;
    hide RunVolume;
    hide RunModel;
    hide LastTime;
    if ops == [] {
      NothingRuns(x, now);
    } else {
      NextInStep(x, ops[0], calls[0], now);
      ServedGives(x, ops[0], calls[0], now);
      InStepGives(x, now);
      AskedGives(x, ops[0], calls[0], now);
      NextLayersIs(x, ops[0], calls[0], now);
      LastTimeUnfolds(ops, now);
      LayersStayInStep(NextLayers(x, ops[0], calls[0], now), ops[1..], calls[1..], ops[0].now);
      RunsBegin(x.v, x.t, ops, now);
      RunUnfolds(x.v, x.t, ops, now);
    }
  }

  lemma NothingRuns(x: Layers, now: int)
    requires InStep(x, now)
    ensures LastTime([], now) == now && Runs(x.v, x.t, [], now)
    ensures RunVolume(x.v, x.t, [], now).1 == x.v && RunModel(x.v, x.t, [], now).1 == x.t
    ensures LayersRun(x, [], [], now) && LayersEnd(x, [], [], now) == x
  {
    hide InStep;
  }

  lemma RunsBegin(v: Volume, t: Model, ops: seq<VOp>, now: int)
    requires v.entries.Keys <= v.disk.m.Keys && t.held <= t.tree.Keys && t.held == v.entries.Keys
    requires ops != [] && now <= ops[0].now && VolumeRefinement.Guard(v, t, ops[0])
    requires Asks(v.entries.Keys, ops[0]) && Asks(t.held, ops[0])
    requires Runs(VStep(v, ops[0]).1, ModelStep(t, ops[0], Hint(v, ops[0])).1, ops[1..], ops[0].now)
    ensures Runs(v, t, ops, now)
  {
    hide VStep;
    hide ModelStep;
    hide Hint;
    hide VolumeRefinement.Guard;
  }

  ghost predicate LoadGives(e: Engine, t: Model, h: nat, now: int)
    requires h != INVALID_HANDLE && e.isOpen && e.dev.blockSize > 0
  {
    Load(e, h, now) == if h in t.tree then Loaded(Cleanup(t.tree[h], now)) else Refused(InvalidArgument)
  }

  /** With no entry open, a load from the engine gives the record in the tree under that handle. */
  ghost predicate Holds(e: Engine, t: Model, now: int) {
    && e.isOpen && e.dev.blockSize > 0 && IsTree(t.tree)
    && (t.held == {} ==> forall h: nat :: h != INVALID_HANDLE ==> LoadGives(e, t, h, now))
  }

  lemma LoadsTree(x: Layers, h: nat, now: int)
    requires InStep(x, now) && x.t.held == {} && h != INVALID_HANDLE && x.e.isOpen && x.e.dev.blockSize > 0
    ensures LoadGives(x.e, x.t, h, now)
  {
    hide *;
    LoadGivesIs(x.e, x.t, h, now);
    InStepGives(x, now);
    RefinesGives(x.v, x.t, now);
    E.LoadRefines(x.e, x.v.disk, h, now);
    if h in x.t.tree {
      V.ViewAt(x.v, h);
      SameTreesAt(View(x.v), x.t.tree, h, now);
      SameCleaned(View(x.v)[h], x.t.tree[h], now);
    }
  }

  lemma InStepGives(x: Layers, now: int)
    requires InStep(x, now)
    ensures E.Refines(x.e, x.v.disk) && X.Tidy(x.e) && V.Refines(x.v, x.t, now) && AllSavable(x.v)
  {
    hide E.Refines;
    hide V.Refines;
    hide X.Tidy;
    hide AllSavable;
  }

  lemma InStepIs(x: Layers, now: int)
    requires E.Refines(x.e, x.v.disk) && X.Tidy(x.e) && V.Refines(x.v, x.t, now) && AllSavable(x.v)
    ensures InStep(x, now)
  {
  }

  lemma SameCleaned(a: Rec, b: Rec, now: int)
    requires V.Same(a, b, now)
    ensures Cleanup(a, now) == Cleanup(b, now)
  {
  }

  lemma LoadGivesIs(e: Engine, t: Model, h: nat, now: int)
    requires h != INVALID_HANDLE && e.isOpen && e.dev.blockSize > 0
    ensures LoadGives(e, t, h, now)
        <==> Load(e, h, now) == if h in t.tree then Loaded(Cleanup(t.tree[h], now)) else Refused(InvalidArgument)
  {
    hide Load;
    hide Cleanup;
  }

  /**
   * The two refinements together: over every run of a volume on an engine, with nothing assumed
   * of any state on the way, the volume shows the plain tree at the end and, once no entry is
   * held, the engine's loads give the records of that tree, by handle, and no others.
   */
  lemma EngineHoldsTree(x: Layers, ops: seq<VOp>, calls: seq<seq<E.Op>>, now: int)
    requires |calls| == |ops| && InStep(x, now) && LayersRun(x, ops, calls, now)
    ensures Runs(x.v, x.t, ops, now) && RunVolume(x.v, x.t, ops, now).0 == RunModel(x.v, x.t, ops, now).0
    ensures Holds(LayersEnd(x, ops, calls, now).e, RunModel(x.v, x.t, ops, now).1, LastTime(ops, now))
  {
    hide *;
    var y := LayersEnd(x, ops, calls, now);
    LayersStayInStep(x, ops, calls, now);
    InStepGives(x, now);
    InStepGives(y, LastTime(ops, now));
    IsOpen(y.e, y.v.disk);
    VolumeRefinement.RunRefines(x.v, x.t, ops, now);
    if y.t.held == {} {
      forall h: nat | h != INVALID_HANDLE ensures LoadGives(y.e, y.t, h, LastTime(ops, now)) {
        LoadsTree(y, h, LastTime(ops, now));
      }
    }
    HoldsIs(y.e, y.t, LastTime(ops, now));
  }

  lemma IsOpen(e: Engine, s: E.Spec)
    requires E.Refines(e, s)
    ensures e.isOpen && e.dev.blockSize > 0
  {
    hide E.Represents;
  }

  lemma HoldsIs(e: Engine, t: Model, now: int)
    requires e.isOpen && e.dev.blockSize > 0 && IsTree(t.tree)
    requires t.held == {} ==> forall h: nat :: h != INVALID_HANDLE ==> LoadGives(e, t, h, now)
    ensures Holds(e, t, now)
  {
    hide IsTree;
    hide LoadGives;
  }

  /** A new volume on a new engine: the run can begin. */
  lemma NewLayers(e: Engine, opts: Options, mode: Mode, now: int)
    requires E.IsNew(e, opts)
    ensures InStep(Layers(X.NewStore(e, opts, mode), NEW_VOLUME, NEW_MODEL), now)
  {
    NewVolumeRefines(now);
    E.NoPairs();
    hide E.Refines;
    hide V.Refines;
    hide X.Tidy;
  }
}
