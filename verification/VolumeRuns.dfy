// A volume refines a plain tree: over every sequential run with successful saves, its open
// entries are a transparent write-back overlay, links and unlinks act on the tree, and a path
// finds what a walk from the root finds (lib/ondisk/Volume_p.hpp).

module VolumeRuns {
  import opened Wrappers
  import opened Serialization
  import opened Records
  import opened EngineRuns
  import opened Paths
  import opened MRUCaches
  import opened Volumes
  import opened PathCaches

  /** The same record to every reader from `now` on. */
  predicate Same(a: Rec, b: Rec, now: int) {
    Cleanup(a, now) == Cleanup(b, now)
  }

  predicate SameTrees(t: Tree, u: Tree, now: int) {
    t.Keys == u.Keys && forall h <- t :: Same(t[h], u[h], now)
  }

  /** Only properties that exist can expire. */
  predicate ExpiryOk(r: Rec) {
    forall p <- r.expiry :: p in r.props
  }

  /** An open record that is not dirty is the stored one; every record keeps its expirations in order. */
  predicate EntryOk(disk: Spec, h: nat, e: Entry, now: int)
    requires h in disk.m
  {
    ExpiryOk(e.rec) && (!e.dirty ==> Same(e.rec, disk.m[h], now))
  }

  predicate StoredOk(r: Rec, h: nat) {
    r.key == h && ExpiryOk(r)
  }

  ghost predicate Inv(v: Volume, now: int) {
    && Sound(v)
    && (forall h <- v.disk.m :: StoredOk(v.disk.m[h], h))
    && (forall h <- v.entries :: EntryOk(v.disk, h, v.entries[h], now))
  }

  /** The plain tree: records, the next handle, and the handles held open. */
  datatype Model = Model(tree: Tree, counter: nat, held: set<nat>)

  ghost predicate Agrees(v: Volume, t: Model, now: int) {
    && SameTrees(View(v), t.tree, now)
    && v.disk.counter == t.counter
    && v.entries.Keys == t.held
  }

  ghost predicate Refines(v: Volume, t: Model, now: int) {
    Inv(v, now) && Agrees(v, t, now)
  }

  // ---------------------------------------------------------------------------
  // Sameness

  lemma SameLater(a: Rec, b: Rec, t1: int, t2: int)
    requires Same(a, b, t1) && t1 <= t2
    ensures Same(a, b, t2)
  {
    CleanupTwice(a, t1, t2);
    CleanupTwice(b, t1, t2);
  }

  lemma SameCleanup(r: Rec, now: int)
    ensures Same(Cleanup(r, now), r, now)
    ensures ExpiryOk(r) ==> ExpiryOk(Cleanup(r, now))
  {
  }

  lemma SameSkeleton(a: Rec, b: Rec, now: int)
    requires Same(a, b, now)
    ensures Skeleton(a) == Skeleton(b)
  {
  }

  lemma SameReads(a: Rec, b: Rec, p: Bytes, now: int)
    requires Same(a, b, now)
    ensures GetProp(a, p, now) == GetProp(b, p, now)
  {
    CleanupIsTransparent(a, p, now, now);
    CleanupIsTransparent(b, p, now, now);
  }

  /** Mutations do not tell the same records apart; for a cancelled expiration, unless it has passed. */
  lemma SameMutated(a: Rec, b: Rec, m: Mutation, now: int)
    requires Same(a, b, now)
    requires m.CancelP? ==>
               !(Expired(a, m.prop, now) && m.prop in a.props) && !(Expired(b, m.prop, now) && m.prop in b.props)
    ensures Same(Mutated(a, m, now), Mutated(b, m, now), now)
  {
    match m {
      case SetP(p, value) => SetIgnoresCleanup(a, p, value, now, now); SetIgnoresCleanup(b, p, value, now, now);
      case RemoveP(p) => RemoveIgnoresCleanup(a, p, now, now); RemoveIgnoresCleanup(b, p, now, now);
      case ExpireP(p, ms) => ExpireIgnoresCleanup(a, p, ms, now, now); ExpireIgnoresCleanup(b, p, ms, now, now);
      case CancelP(p) => CancelSeesCleanup(a, p, now); CancelSeesCleanup(b, p, now);
    }
  }

  lemma MutatedKeeps(r: Rec, m: Mutation, now: int)
    requires ExpiryOk(r)
    ensures Skeleton(Mutated(r, m, now)) == Skeleton(r) && ExpiryOk(Mutated(r, m, now))
    ensures !MutationStatus(r, m, now).Ok? ==> Mutated(r, m, now) == r
  {
  }

  lemma SameTreesShape(t: Tree, u: Tree, now: int)
    requires SameTrees(t, u, now)
    ensures SameShape(t, u)
  {
  }

  lemma ShapeCacheOk(cache: Cache<Bytes, nat>, t: Tree, u: Tree, limit: nat)
    requires CacheOk(cache, t, limit) && SameShape(t, u)
    ensures CacheOk(cache, u, limit)
  {
    forall cs | Names(cs) && Resident(cache, PathString(cs))
      ensures CachedOk(u, limit, cs, ValueOf(cache, PathString(cs)))
    {
      assert CachedOk(t, limit, cs, ValueOf(cache, PathString(cs)));
      ShapeWalk(t, u, ROOT_HANDLE, cs);
    }
  }

  /** A volume that shows a tree of the same shape, over the same handles, is as sound. */
  lemma ShapeSound(v: Volume, w: Volume)
    requires Sound(v) && SameShape(View(v), View(w))
    requires w.disk.counter == v.disk.counter && w.cache == v.cache && w.entries.Keys <= w.disk.m.Keys
    ensures Sound(w)
  {
    ShapeIsTree(View(v), View(w));
    ShapeCacheOk(v.cache, View(v), View(w), v.disk.counter);
    assert View(v).Keys == v.disk.m.Keys && View(w).Keys == w.disk.m.Keys;
    hide IsTree;
    hide CacheOk;
  }

  /** Time passing keeps what holds. */
  lemma RefinesLater(v: Volume, t: Model, t1: int, t2: int)
    requires Refines(v, t, t1) && t1 <= t2
    ensures Refines(v, t, t2)
  {
    assert v.entries.Keys <= v.disk.m.Keys;
    hide Sound;
    hide Same;
    forall h | h in v.entries ensures EntryOk(v.disk, h, v.entries[h], t2) {
      if !v.entries[h].dirty {
        SameLater(v.entries[h].rec, v.disk.m[h], t1, t2);
      }
    }
    forall h | h in View(v) ensures Same(View(v)[h], t.tree[h], t2) {
      SameLater(View(v)[h], t.tree[h], t1, t2);
    }
  }

  // ---------------------------------------------------------------------------
  // Opening, releasing and flushing do not change what the volume shows

  lemma OpenIsTransparent(v: Volume, h: nat, now: int)
    requires Inv(v, now)
    ensures var (found, w) := OpenHandle(v, h, now);
            && found == (if h in v.disk.m then Some(h) else None)
            && Inv(w, now) && SameTrees(View(w), View(v), now)
            && w.disk == v.disk && w.entries.Keys == v.entries.Keys + (if h in v.disk.m then {h} else {})
  {
    hide *;
    InvGives(v, now);
    InvSound(v, now);
    OpenHandleIs(v, h, now);
    if h in v.disk.m && h !in v.entries {
      var w := OpenHandle(v, h, now).1;
      StoredGives(v.disk.m[h], h);
      WrittenBack(v.disk.m[h], h, now);
      StoredGives(Cleanup(v.disk.m[h], now), h);
      OpenedView(v, w, h, now);
      SameTreesShape(View(w), View(v), now);
      ShapeSymmetric(View(w), View(v));
      ShapeSound(v, w);
      MakeEntryOk(v.disk, h, w.entries[h], now);
      EntryPut(v, w, h, now);
    } else {
      SameTreesReflexive(View(v), now);
    }
  }

  lemma OpenHandleIs(v: Volume, h: nat, now: int)
    ensures OpenHandle(v, h, now)
            == if h in v.entries then (Some(h), v)
               else if h !in v.disk.m then (None, v)
               else (Some(h), v.(entries := v.entries[h := Entry(Cleanup(v.disk.m[h], now), false)]))
  {
  }

  lemma StoredGives(r: Rec, h: nat)
    requires StoredOk(r, h)
    ensures r.key == h && ExpiryOk(r)
  {
  }

  lemma OpenedView(v: Volume, w: Volume, h: nat, now: int)
    requires h in v.disk.m && h !in v.entries && h in w.entries && w == v.(entries := v.entries[h := w.entries[h]])
    requires Same(w.entries[h].rec, v.disk.m[h], now)
    ensures SameTrees(View(w), View(v), now) && View(w).Keys == w.disk.m.Keys
  {
  }

  lemma ShapeSymmetric(t: Tree, u: Tree)
    requires SameShape(t, u)
    ensures SameShape(u, t)
  {
  }

  lemma SameTreesReflexive(t: Tree, now: int)
    ensures SameTrees(t, t, now)
  {
  }

  /** Writing an open record back, and forgetting it. */
  lemma WriteBack(v: Volume, w: Volume, now: int)
    requires Inv(v, now) && w.cache == v.cache && w.disk.counter == v.disk.counter
    requires w.entries.Keys <= v.entries.Keys && w.disk.m.Keys == v.disk.m.Keys
    requires forall h <- w.entries :: w.entries[h] == v.entries[h] && w.disk.m[h] == v.disk.m[h]
    requires forall h <- w.disk.m :: h !in w.entries ==> StoredOk(w.disk.m[h], h) && Same(w.disk.m[h], View(v)[h], now)
    ensures Inv(w, now) && SameTrees(View(w), View(v), now)
  {
    hide CacheOk;
    hide IsTree;
    hide Same;
    forall h | h in w.disk.m ensures Same(View(v)[h], View(w)[h], now) && Same(View(w)[h], View(v)[h], now) {
      if h !in w.entries {
        SameSymmetric(w.disk.m[h], View(v)[h], now);
      } else {
        SameReflexive(View(v)[h], now);
      }
    }
    SameTreesShape(View(v), View(w), now);
    ShapeSound(v, w);
  }

  lemma SameSymmetric(a: Rec, b: Rec, now: int)
    ensures Same(a, b, now) == Same(b, a, now)
  {
  }

  lemma SameReflexive(a: Rec, now: int)
    ensures Same(a, a, now)
  {
  }

  lemma ReleaseIsTransparent(v: Volume, h: nat, now: int)
    requires Inv(v, now) && h in v.entries
    ensures var w := Release(v, h, now);
            && Inv(w, now) && SameTrees(View(w), View(v), now)
            && w.disk.counter == v.disk.counter && w.entries.Keys == v.entries.Keys - {h}
  {
    hide *;
    InvGives(v, now);
    EntryGives(v, h, now);
    assert View(v)[h] == v.entries[h].rec;
    ReleaseIs(v, h, now);
    var w := Release(v, h, now);
    forall x | x in w.disk.m && x !in w.entries
      ensures StoredOk(w.disk.m[x], x) && Same(w.disk.m[x], View(v)[x], now)
    {
      if x == h {
        WrittenBack(v.entries[h].rec, h, now);
        SameSymmetric(v.entries[h].rec, v.disk.m[h], now);
      } else {
        SameReflexive(View(v)[x], now);
      }
    }
    WriteBack(v, w, now);
  }

  lemma ReleaseIs(v: Volume, h: nat, now: int)
    requires h in v.entries && v.entries[h].rec.key == h
    ensures Release(v, h, now)
            == v.(entries := v.entries - {h},
                  disk := if v.entries[h].dirty then v.disk.(m := v.disk.m[h := Cleanup(v.entries[h].rec, now)])
                      else v.disk)
  {
  }

  lemma InvGives(v: Volume, now: int)
    requires Inv(v, now)
    ensures v.entries.Keys <= v.disk.m.Keys == View(v).Keys
    ensures forall x <- v.disk.m :: StoredOk(v.disk.m[x], x) && View(v)[x].key == x
    ensures forall x <- v.disk.m :: View(v)[x] == if x in v.entries then v.entries[x].rec else v.disk.m[x]
  {
  }

  lemma EntryGives(v: Volume, h: nat, now: int)
    requires Inv(v, now) && h in v.entries
    ensures h in v.disk.m && ExpiryOk(v.entries[h].rec)
              && (!v.entries[h].dirty ==> Same(v.entries[h].rec, v.disk.m[h], now))
  {
  }

  lemma WrittenBack(r: Rec, h: nat, now: int)
    requires r.key == h && ExpiryOk(r)
    ensures StoredOk(Cleanup(r, now), h) && Same(Cleanup(r, now), r, now)
  {
  }

  lemma FlushedRecord(v: Volume, h: nat, now: int)
    requires Inv(v, now) && h in v.disk.m
    ensures h in Flushed(v, now).m
    ensures StoredOk(Flushed(v, now).m[h], h) && Same(Flushed(v, now).m[h], View(v)[h], now)
  {
    assert View(v)[h].key == h;
    assert StoredOk(v.disk.m[h], h);
    if h in v.entries {
      assert EntryOk(v.disk, h, v.entries[h], now);
      SameCleanup(v.entries[h].rec, now);
      hide Inv;
      SameSymmetric(v.entries[h].rec, v.disk.m[h], now);
    } else {
      hide Inv;
      SameReflexive(v.disk.m[h], now);
    }
  }

  /** deinitialize then initialize: nothing is open or cached, and the tree is the same. */
  lemma ReinitializeIsTransparent(v: Volume, now: int)
    requires Inv(v, now)
    ensures var w := Reinitialize(v, now);
            && Inv(w, now) && SameTrees(View(w), View(v), now) && w.disk.counter == v.disk.counter
            && w.entries == map[] && w.cache == []
  {
    assert v.entries.Keys <= v.disk.m.Keys;
    var w := Reinitialize(v, now);
    var w1 := w.(cache := v.cache);
    hide Inv;
    hide Same;
    hide StoredOk;
    assert w.disk.m.Keys == v.disk.m.Keys;
    forall h | h in w.disk.m ensures StoredOk(w.disk.m[h], h) && Same(w.disk.m[h], View(v)[h], now) {
      FlushedRecord(v, h, now);
    }
    WriteBack(v, w1, now);
    ForgetCache(w1, now);
  }

  lemma ForgetCache(v: Volume, now: int)
    requires Inv(v, now)
    ensures Inv(v.(cache := []), now) && View(v.(cache := [])) == View(v)
  {
  }

  /** Entries leave the table: the tree shown is the same exactly when what is stored for them reads the same. */
  lemma LeftShows(v: Volume, w: Volume, now: int)
    requires Inv(v, now) && w.cache == v.cache && w.disk.counter == v.disk.counter
    requires w.entries.Keys <= v.entries.Keys && w.disk.m.Keys == v.disk.m.Keys
    requires forall h <- w.entries :: w.entries[h] == v.entries[h] && w.disk.m[h] == v.disk.m[h]
    requires forall h <- w.disk.m :: h !in w.entries ==> StoredOk(w.disk.m[h], h)
    ensures View(v).Keys == w.disk.m.Keys
    ensures var kept := forall h <- w.disk.m :: h !in w.entries ==> Same(w.disk.m[h], View(v)[h], now);
            (SameTrees(View(w), View(v), now) <==> kept) && (kept ==> Inv(w, now))
  {
    InvGives(v, now);
    hide Inv;
    hide Same;
    hide StoredOk;
    if forall h <- w.disk.m :: h !in w.entries ==> Same(w.disk.m[h], View(v)[h], now) {
      WriteBack(v, w, now);
    } else {
      var h :| h in w.disk.m && h !in w.entries && !Same(w.disk.m[h], View(v)[h], now);
      assert h in View(w) && View(w)[h] == w.disk.m[h];
    }
  }

  /**
   * A release whatever the engine answers: the tree shown is unchanged exactly when the record
   * was saved or the stored one reads the same, as it does when the entry is not dirty.
   */
  lemma ReleaseAnsweredShows(v: Volume, h: nat, accepted: bool, now: int)
    requires Inv(v, now) && h in v.entries
    ensures h in v.disk.m && (!v.entries[h].dirty ==> Same(v.entries[h].rec, v.disk.m[h], now))
    ensures var w := ReleaseAnswered(v, h, accepted, now);
            var kept := accepted || Same(v.entries[h].rec, v.disk.m[h], now);
            (SameTrees(View(w), View(v), now) <==> kept) && (kept ==> Inv(w, now))
  {
    hide *;
    InvGives(v, now);
    EntryGives(v, h, now);
    ReleaseAnsweredIs(v, h, accepted, now);
    if accepted {
      ReleaseIsTransparent(v, h, now);
    } else {
      LeftShows(v, v.(entries := v.entries - {h}), now);
      SameSymmetric(v.entries[h].rec, v.disk.m[h], now);
      forall x | x in v.disk.m && x !in v.entries ensures Same(v.disk.m[x], View(v)[x], now) {
        SameReflexive(v.disk.m[x], now);
      }
    }
  }

  lemma ReleaseAnsweredIs(v: Volume, h: nat, accepted: bool, now: int)
    ensures ReleaseAnswered(v, h, accepted, now)
            == if accepted then Release(v, h, now) else v.(entries := v.entries - {h})
  {
    hide Release;
  }

  /**
   * deinitialize then initialize, whatever the engine answers to the saves: the tree shown is
   * unchanged exactly when each open record was saved or its stored one reads the same.
   */
  lemma ReinitializeAnsweredShows(v: Volume, accepted: set<nat>, now: int)
    requires Inv(v, now)
    ensures v.entries.Keys <= v.disk.m.Keys
    ensures var w := ReinitializeAnswered(v, accepted, now);
            var kept := forall h <- v.entries :: h in accepted || Same(v.entries[h].rec, v.disk.m[h], now);
            (SameTrees(View(w), View(v), now) <==> kept) && (kept ==> Inv(w, now))
  {
    hide *;
    InvGives(v, now);
    var w := ReinitializeAnswered(v, accepted, now);
    var w1 := Volume(FlushedOf(v, accepted, now), map[], v.cache);
    FlushedOfIs(v, accepted, now);
    forall h | h in v.disk.m
      ensures StoredOk(w1.disk.m[h], h)
      ensures Same(w1.disk.m[h], View(v)[h], now)
              <==> h in v.entries && h !in accepted ==> Same(v.entries[h].rec, v.disk.m[h], now)
    {
      FlushedOfRecord(v, accepted, h, now);
    }
    LeftShows(v, w1, now);
    if forall h <- v.entries :: h in accepted || Same(v.entries[h].rec, v.disk.m[h], now) {
      ForgetCache(w1, now);
    }
    SameView(w, w1);
  }

  lemma SameView(v: Volume, w: Volume)
    requires w.disk == v.disk && w.entries == v.entries
    ensures View(v) == View(w)
  {
  }

  lemma FlushedOfIs(v: Volume, accepted: set<nat>, now: int)
    requires v.entries.Keys <= v.disk.m.Keys
    ensures ReinitializeAnswered(v, accepted, now) == Volume(FlushedOf(v, accepted, now), map[], [])
    ensures FlushedOf(v, accepted, now).m.Keys == v.disk.m.Keys
    ensures FlushedOf(v, accepted, now).counter == v.disk.counter
  {
    hide Cleanup;
  }

  lemma FlushedOfRecord(v: Volume, accepted: set<nat>, h: nat, now: int)
    requires Inv(v, now) && h in v.disk.m
    ensures h in FlushedOf(v, accepted, now).m && h in View(v) && StoredOk(FlushedOf(v, accepted, now).m[h], h)
    ensures Same(FlushedOf(v, accepted, now).m[h], View(v)[h], now)
            <==> h in v.entries && h !in accepted ==> Same(v.entries[h].rec, v.disk.m[h], now)
  {
    InvGives(v, now);
    if h in v.entries {
      EntryGives(v, h, now);
      WrittenBack(v.entries[h].rec, h, now);
      SameSymmetric(v.entries[h].rec, v.disk.m[h], now);
    }
    SameReflexive(v.disk.m[h], now);
    hide Inv;
    hide Same;
    hide StoredOk;
    hide Cleanup;
  }

  /** Opening an entry and letting it go again saves nothing and leaves the volume as it was. */
  lemma OpenThenRelease(v: Volume, h: nat, now: int, later: int)
    requires h !in v.entries
    ensures var (found, w) := OpenHandle(v, h, now);
            && (found == Some(h) <==> h in v.disk.m)
            && Release(w, h, later) == v
  {
    if h in v.disk.m {
      var e := Entry(Cleanup(v.disk.m[h], now), false);
      assert v.entries[h := e] - {h} == v.entries;
    }
    hide Cleanup;
  }

  /** A mutation that reports no success changes nothing, the dirty flag included. */
  lemma FailedMutationChangesNothing(v: Volume, h: nat, m: Mutation, now: int)
    requires h in v.entries && ExpiryOk(v.entries[h].rec) && !MutationStatus(v.entries[h].rec, m, now).Ok?
    ensures Mutate(v, h, m, now) == v
  {
    MutatedKeeps(v.entries[h].rec, m, now);
    hide Mutated;
    hide MutationStatus;
    assert v.entries[h := v.entries[h]] == v.entries;
  }

  lemma MutateKeepsInv(v: Volume, h: nat, m: Mutation, now: int)
    requires Inv(v, now) && h in v.entries
    ensures var w := Mutate(v, h, m, now);
            && Inv(w, now) && w.disk == v.disk && w.entries.Keys == v.entries.Keys
            && View(w) == View(v)[h := Mutated(View(v)[h], m, now)]
  {
    hide *;
    InvGives(v, now);
    EntryGives(v, h, now);
    InvSound(v, now);
    MutateIs(v, h, m, now);
    var e, w := v.entries[h], Mutate(v, h, m, now);
    MutatedKeeps(e.rec, m, now);
    MutatedView(v, w, h, m, now);
    SkeletonAt(View(v), View(w), h, Mutated(e.rec, m, now));
    ShapeSound(v, w);
    EntryStaysOk(v.disk, h, e, m, now);
    EntryPut(v, w, h, now);
  }

  lemma EntryStaysOk(disk: Spec, h: nat, e: Entry, m: Mutation, now: int)
    requires h in disk.m && ExpiryOk(e.rec) && (!e.dirty ==> Same(e.rec, disk.m[h], now))
    ensures EntryOk(disk, h, Entry(Mutated(e.rec, m, now), e.dirty || MutationStatus(e.rec, m, now).Ok?), now)
  {
  }

  lemma MutateIs(v: Volume, h: nat, m: Mutation, now: int)
    requires h in v.entries
    ensures var e := v.entries[h];
            Mutate(v, h, m, now)
            == v.(entries :=
                    v.entries[h := Entry(Mutated(e.rec, m, now), e.dirty || MutationStatus(e.rec, m, now).Ok?)])
  {
  }

  lemma MutatedView(v: Volume, w: Volume, h: nat, m: Mutation, now: int)
    requires h in v.entries && h in w.entries && h in v.disk.m && w.disk == v.disk
    requires w.entries == v.entries[h := w.entries[h]] && w.entries[h].rec == Mutated(v.entries[h].rec, m, now)
    ensures h in View(v) && View(w) == View(v)[h := Mutated(View(v)[h], m, now)]
  {
  }

  lemma SkeletonAt(t: Tree, u: Tree, h: nat, r: Rec)
    requires h in t && u == t[h := r] && Skeleton(r) == Skeleton(t[h])
    ensures SameShape(t, u)
  {
  }

  /** One open record has been put in the table, dirty unless it is the stored one. */
  lemma EntryPut(v: Volume, w: Volume, h: nat, now: int)
    requires Inv(v, now) && Sound(w) && h in v.disk.m && h in w.entries
               && w == v.(entries := v.entries[h := w.entries[h]])
    requires EntryOk(v.disk, h, w.entries[h], now)
    ensures Inv(w, now)
  {
  }

  // ---------------------------------------------------------------------------
  // Links change the tree as told

  function Linked(t: Tree, h: nat, name: Bytes, c: nat): Tree
    requires h in t
  {
    t[h := t[h].(children := t[h].children[name := c])][c := NewRec(c, name).(parent := h)]
  }

  function Unlinked(t: Tree, h: nat, c: nat): Tree
    requires h in t
  {
    t[h := t[h].(children := WithoutHandle(t[h].children, c))] - {c}
  }

  lemma LinkedChildren(t: Tree, h: nat, name: Bytes, c: nat, x: nat, n: Bytes)
    requires IsTree(t) && h in t && name !in t[h].children && c !in t && h < c
    requires x in Linked(t, h, name, c) && n in Linked(t, h, name, c)[x].children
    ensures var u := Linked(t, h, name, c); IsChild(u, x, n, u[x].children[n])
  {
    hide IsTree;
    hide Linked;
    LinkedCases(t, h, name, c, x, n);
    if x != c && !(x == h && n == name) {
      ChildIs(t, x, n);
      LinkedFields(t, h, name, c, t[x].children[n]);
    }
  }

  /** The children a link leaves: those there were, and the new one, which has none itself. */
  lemma LinkedCases(t: Tree, h: nat, name: Bytes, c: nat, x: nat, n: Bytes)
    requires h in t && c !in t && h < c && x in Linked(t, h, name, c) && n in Linked(t, h, name, c)[x].children
    ensures var u := Linked(t, h, name, c);
            if x == h && n == name then IsChild(u, x, n, u[x].children[n])
            else x != c && x in t && n in t[x].children && u[x].children[n] == t[x].children[n]
  {
  }

  lemma ChildIs(t: Tree, x: nat, n: Bytes)
    requires IsTree(t) && x in t && n in t[x].children
    ensures var y := t[x].children[n]; y in t && t[y].parent == x && t[y].name == n && x < y
  {
    assert IsChild(t, x, n, t[x].children[n]);
  }

  lemma LinkedParents(t: Tree, h: nat, name: Bytes, c: nat, x: nat)
    requires IsTree(t) && h in t && name !in t[h].children && forall y <- t :: y < c
    requires x in Linked(t, h, name, c) && x != ROOT_HANDLE
    ensures var u := Linked(t, h, name, c);
            u[x].parent in u && u[x].name in u[u[x].parent].children && u[u[x].parent].children[u[x].name] == x
  {
    hide *;
    if x in t {
      ParentLists(t, x);
      LinkedFields(t, h, name, c, x);
      LinkedStep(t, h, name, c, t[x].parent, t[x].name);
    } else {
      LinkedLeaf(t, h, name, c, x);
    }
  }

  lemma LinkedFields(t: Tree, h: nat, name: Bytes, c: nat, x: nat)
    requires h in t && x in t && x != c
    ensures x in Linked(t, h, name, c)
    ensures Linked(t, h, name, c)[x].parent == t[x].parent && Linked(t, h, name, c)[x].name == t[x].name
  {
  }

  lemma LinkedLeaf(t: Tree, h: nat, name: Bytes, c: nat, x: nat)
    requires h in t && h < c && x !in t && x in Linked(t, h, name, c)
    ensures var u := Linked(t, h, name, c);
            u[x].parent in u && u[x].name in u[u[x].parent].children && u[u[x].parent].children[u[x].name] == x
  {
  }

  lemma LinkedKeys(t: Tree, h: nat, name: Bytes, c: nat, x: nat)
    requires IsTree(t) && h in t && name !in t[h].children && (forall y <- t :: y < c) && x in Linked(t, h, name, c)
    ensures Linked(t, h, name, c)[x].key == x && Bijective(Linked(t, h, name, c)[x].children)
  {
  }

  lemma LinkedIsTree(t: Tree, h: nat, name: Bytes, c: nat)
    requires IsTree(t) && h in t && name !in t[h].children && forall x <- t :: x < c
    ensures IsTree(Linked(t, h, name, c))
  {
    var u := Linked(t, h, name, c);
    assert ROOT_HANDLE in u && u[ROOT_HANDLE].parent == INVALID_HANDLE;
    forall x, n | x in u && n in u[x].children ensures IsChild(u, x, n, u[x].children[n]) {
      LinkedChildren(t, h, name, c, x, n);
    }
    forall x | x in u ensures u[x].key == x && Bijective(u[x].children) {
      LinkedKeys(t, h, name, c, x);
    }
    forall x | x in u && x != ROOT_HANDLE
      ensures u[x].parent in u && u[x].name in u[u[x].parent].children && u[u[x].parent].children[u[x].name] == x
    {
      LinkedParents(t, h, name, c, x);
    }
    hide Linked;
    hide Bijective;
    hide IsChild;
  }

  lemma UnlinkedKeys(t: Tree, h: nat, c: nat, x: nat)
    requires IsTree(t) && h in t && x in Unlinked(t, h, c)
    ensures Unlinked(t, h, c)[x].key == x && Bijective(Unlinked(t, h, c)[x].children)
  {
  }

  lemma UnlinkedChildren(t: Tree, h: nat, c: nat, x: nat, n: Bytes)
    requires IsTree(t) && h in t && c in t && t[c].parent == h
    requires x in Unlinked(t, h, c) && n in Unlinked(t, h, c)[x].children
    ensures var u := Unlinked(t, h, c); IsChild(u, x, n, u[x].children[n])
  {
    UnlinkedCases(t, h, c, x, n);
    ChildIs(t, x, n);
    hide IsTree;
    hide Unlinked;
    UnlinkedKept(t, h, c, t[x].children[n]);
  }

  /** An unlink of a child leaves only children that were there, and none that lists it. */
  lemma UnlinkedCases(t: Tree, h: nat, c: nat, x: nat, n: Bytes)
    requires IsTree(t) && h in t && c in t && t[c].parent == h
    requires x in Unlinked(t, h, c) && n in Unlinked(t, h, c)[x].children
    ensures x in t && n in t[x].children && Unlinked(t, h, c)[x].children[n] == t[x].children[n]
              && t[x].children[n] != c
  {
    if x == h {
      hide IsTree;
    } else {
      ChildIs(t, x, n);
      hide IsTree;
    }
  }

  lemma UnlinkedKept(t: Tree, h: nat, c: nat, y: nat)
    requires h in t && y in t && y != c
    ensures y in Unlinked(t, h, c) && Unlinked(t, h, c)[y].parent == t[y].parent
              && Unlinked(t, h, c)[y].name == t[y].name
  {
  }

  lemma UnlinkedParents(t: Tree, h: nat, c: nat, x: nat)
    requires IsTree(t) && h in t && c in t && t[c].children == map[] && x in Unlinked(t, h, c) && x != ROOT_HANDLE
    ensures var u := Unlinked(t, h, c);
            u[x].parent in u && u[x].name in u[u[x].parent].children && u[u[x].parent].children[u[x].name] == x
  {
    hide *;
    UnlinkedFields(t, h, c, x);
    ParentLists(t, x);
    UnlinkedStep(t, h, c, t[x].parent, t[x].name);
  }

  lemma ParentLists(t: Tree, x: nat)
    requires IsTree(t) && x in t && x != ROOT_HANDLE
    ensures t[x].parent in t && t[x].name in t[t[x].parent].children && t[t[x].parent].children[t[x].name] == x
  {
  }

  lemma UnlinkedFields(t: Tree, h: nat, c: nat, x: nat)
    requires h in t && x in Unlinked(t, h, c)
    ensures x in t && x != c && Unlinked(t, h, c)[x].parent == t[x].parent && Unlinked(t, h, c)[x].name == t[x].name
  {
  }

  lemma UnlinkedIsTree(t: Tree, h: nat, name: Bytes)
    requires IsTree(t) && h in t && name in t[h].children
    requires t[h].children[name] in t && t[t[h].children[name]].children == map[]
    ensures IsTree(Unlinked(t, h, t[h].children[name]))
  {
    var c := t[h].children[name];
    var u := Unlinked(t, h, c);
    assert IsChild(t, h, name, c);
    RootNotChild(t, h, name);
    assert ROOT_HANDLE in u && u[ROOT_HANDLE].parent == INVALID_HANDLE;
    forall x | x in u ensures u[x].key == x && Bijective(u[x].children) {
      UnlinkedKeys(t, h, c, x);
    }
    forall x, n | x in u && n in u[x].children ensures IsChild(u, x, n, u[x].children[n]) {
      UnlinkedChildren(t, h, c, x, n);
    }
    forall x | x in u && x != ROOT_HANDLE
      ensures u[x].parent in u && u[x].name in u[u[x].parent].children && u[u[x].parent].children[u[x].name] == x
    {
      UnlinkedParents(t, h, c, x);
    }
    hide Unlinked;
    hide Bijective;
    hide IsChild;
  }

  lemma RootNotChild(t: Tree, h: nat, name: Bytes)
    requires IsTree(t) && h in t && name in t[h].children
    ensures t[h].children[name] != ROOT_HANDLE
  {
  }

  lemma LinkedStep(t: Tree, h: nat, name: Bytes, c: nat, x: nat, n: Bytes)
    requires h in t && name !in t[h].children && c !in t && x in t && n in t[x].children
    ensures var u := Linked(t, h, name, c); x in u && n in u[x].children && u[x].children[n] == t[x].children[n]
  {
  }

  /** A new link leaves every walk to an old handle alone. */
  lemma {:induction false} LinkedWalks(t: Tree, h: nat, name: Bytes, c: nat, x: nat, cs: Path)
    requires IsTree(t) && h in t && name !in t[h].children && c !in t && x in t
    requires Walk(t, x, cs).Some?
    ensures Walk(Linked(t, h, name, c), x, cs) == Walk(t, x, cs)
    decreases |cs|
  {
    hide IsTree;
    hide Linked;
    if cs != [] {
      ChildIs(t, x, cs[0]);
      LinkedStep(t, h, name, c, x, cs[0]);
      LinkedWalks(t, h, name, c, t[x].children[cs[0]], cs[1..]);
    }
  }

  lemma LeafWalk(t: Tree, c: nat, cs: Path)
    requires c in t && t[c].children == map[] && Walk(t, c, cs).Some?
    ensures cs == []
  {
  }

  lemma UnlinkedStep(t: Tree, h: nat, c: nat, x: nat, n: Bytes)
    requires h in t && x in t && x != c && n in t[x].children && t[x].children[n] != c
    ensures var u := Unlinked(t, h, c); x in u && n in u[x].children && u[x].children[n] == t[x].children[n]
  {
  }

  /** Removing a leaf leaves every walk that ends elsewhere alone. */
  lemma {:induction false} UnlinkedWalks(t: Tree, h: nat, c: nat, x: nat, cs: Path)
    requires IsTree(t) && h in t && c in t && t[c].children == map[] && x in t
    requires Walk(t, x, cs).Some? && Walk(t, x, cs).value != c
    ensures Walk(Unlinked(t, h, c), x, cs) == Walk(t, x, cs)
    decreases |cs|
  {
    hide IsTree;
    hide Unlinked;
    if cs != [] {
      var y := t[x].children[cs[0]];
      ChildIs(t, x, cs[0]);
      if y == c {
        LeafWalk(t, c, cs[1..]);
      }
      UnlinkedStep(t, h, c, x, cs[0]);
      UnlinkedWalks(t, h, c, y, cs[1..]);
    }
  }

  lemma LinkedCacheOk(cache: Cache<Bytes, nat>, t: Tree, h: nat, name: Bytes, c: nat)
    requires IsTree(t) && h in t && name !in t[h].children && c !in t && CacheOk(cache, t, c)
    ensures CacheOk(cache, Linked(t, h, name, c), c + 1)
  {
    var u := Linked(t, h, name, c);
    forall cs | Names(cs) && Resident(cache, PathString(cs))
      ensures CachedOk(u, c + 1, cs, ValueOf(cache, PathString(cs)))
    {
      assert CachedOk(t, c, cs, ValueOf(cache, PathString(cs)));
      if ValueOf(cache, PathString(cs)) in t {
        LinkedWalks(t, h, name, c, ROOT_HANDLE, cs);
      }
    }
  }

  /** The handle that goes becomes stale in the cache; the others still stand for their paths. */
  lemma UnlinkedCacheOk(cache: Cache<Bytes, nat>, t: Tree, h: nat, c: nat, limit: nat)
    requires IsTree(t) && h in t && c in t && t[c].children == map[] && CacheOk(cache, t, limit)
    ensures CacheOk(cache, Unlinked(t, h, c), limit)
  {
    var u := Unlinked(t, h, c);
    forall cs | Names(cs) && Resident(cache, PathString(cs))
      ensures CachedOk(u, limit, cs, ValueOf(cache, PathString(cs)))
    {
      var x := ValueOf(cache, PathString(cs));
      assert CachedOk(t, limit, cs, x);
      if x in u {
        UnlinkedWalks(t, h, c, ROOT_HANDLE, cs);
      }
    }
  }

  lemma FreshHandle(v: Volume, h: nat, name: Bytes)
    requires Sound(v) && h in v.entries && name !in v.entries[h].rec.children
    ensures CanAdd(v.entries[h].rec.children, name, v.disk.counter)
    ensures View(v)[h] == v.entries[h].rec && v.entries[h].rec.key == h
  {
    var t := View(v);
    assert t[h] == v.entries[h].rec;
    forall n | n in t[h].children ensures t[h].children[n] != v.disk.counter {
      assert IsChild(t, h, n, t[h].children[n]);
    }
  }

  lemma AddThenRemove(m: map<Bytes, nat>, name: Bytes, c: nat)
    requires CanAdd(m, name, c)
    ensures WithoutHandle(m[name := c], c) == m
  {
  }

  /** What a link does once its checks have passed. */
  lemma LinkResult(v: Volume, h: nat, name: Bytes, saved: bool, now: int)
    requires ValidName(name) && h in v.entries && CanAdd(v.entries[h].rec.children, name, v.disk.counter)
    requires v.entries[h].rec.key == h
    ensures Link(v, h, name, saved, now)
            == if !saved then (IOError, v.(disk := v.disk.(counter := v.disk.counter + 1)))
               else (Ok, v.(disk := Stored(v.disk.(counter := v.disk.counter + 1),
                   NewRec(v.disk.counter, name).(parent := h), now),
                            entries := v.entries[h := LinkedEntry(v.entries[h].rec, name, v.disk.counter)]))
  {
    hide CanAdd;
    hide WithoutHandle;
    hide Stored;
    hide ValidName;
    var e := v.entries[h];
    assert name !in e.rec.children by { CanAddIsNew(e.rec.children, name, v.disk.counter); }
    AddThenRemove(e.rec.children, name, v.disk.counter);
    assert v.entries[h := e] == v.entries;
  }

  lemma CanAddIsNew(m: map<Bytes, nat>, name: Bytes, c: nat)
    requires CanAdd(m, name, c)
    ensures name !in m
  {
  }

  function LinkedEntry(r: Rec, name: Bytes, c: nat): Entry {
    Entry(r.(children := r.children[name := c]), true)
  }

  /** Exactly when a link succeeds, and what it answers otherwise. */
  lemma LinkAnswers(v: Volume, h: nat, name: Bytes, saved: bool, now: int)
    requires Sound(v)
    ensures Link(v, h, name, saved, now).0
            == if name == [] || SEPARATOR in name || h !in v.entries || name in v.entries[h].rec.children
               then InvalidArgument
               else if saved then Ok else IOError
  {
    if h in v.entries && name !in v.entries[h].rec.children {
      FreshHandle(v, h, name);
    }
    hide Sound;
    hide Stored;
    hide WithoutHandle;
  }

  /** A link that does not succeed leaves the tree as it was. */
  lemma FailedLinkChangesNothing(v: Volume, h: nat, name: Bytes, saved: bool, now: int)
    requires Sound(v) && !Link(v, h, name, saved, now).0.Ok?
    ensures var w := Link(v, h, name, saved, now).1;
            View(w) == View(v) && w == v.(disk := v.disk.(counter := w.disk.counter))
            && v.disk.counter <= w.disk.counter <= v.disk.counter + 1
  {
    if ValidName(name) && h in v.entries && name !in v.entries[h].rec.children {
      FreshHandle(v, h, name);
      hide Sound;
      LinkResult(v, h, name, saved, now);
      hide Link;
      hide ValidName;
    } else {
      hide Sound;
      hide ValidName;
    }
  }

  lemma NewRecStored(s: Spec, c: nat, h: nat, name: Bytes, now: int)
    ensures var child := NewRec(c, name).(parent := h);
            Stored(s, child, now) == s.(m := s.m[c := child]) && StoredOk(child, c)
  {
  }

  lemma LinkedView(v: Volume, w: Volume, h: nat, name: Bytes)
    requires h in v.disk.m && h in v.entries && v.disk.counter !in v.entries && v.disk.counter !in v.disk.m
    requires w.disk.m == v.disk.m[v.disk.counter := NewRec(v.disk.counter, name).(parent := h)]
    requires w.entries == v.entries[h := LinkedEntry(v.entries[h].rec, name, v.disk.counter)]
    ensures View(w) == Linked(View(v), h, name, v.disk.counter)
  {
  }

  /** A link that succeeds adds one leaf, under the next handle. */
  lemma LinkAddsLeaf(v: Volume, h: nat, name: Bytes, saved: bool, now: int)
    requires Inv(v, now) && Link(v, h, name, saved, now).0.Ok?
    ensures var w := Link(v, h, name, saved, now).1;
            && saved && ValidName(name) && h in v.entries && name !in v.entries[h].rec.children
            && v.disk.counter !in v.disk.m && w.disk.counter == v.disk.counter + 1
            && w.entries.Keys == v.entries.Keys && w.cache == v.cache
            && View(w) == Linked(View(v), h, name, v.disk.counter)
            && Inv(w, now)
  {
    var w, c := Link(v, h, name, saved, now).1, v.disk.counter;
    assert ValidName(name) && h in v.entries
        && name !in v.entries[h].rec.children by { hide Inv; hide ValidName; hide Stored; }
    FreshHandle(v, h, name);
    LinkResult(v, h, name, saved, now);
    NewRecStored(v.disk.(counter := c + 1), c, h, name, now);
    assert v.entries.Keys <= v.disk.m.Keys && c !in v.disk.m;
    hide Link;
    hide Stored;
    hide ValidName;
    hide Linked;
    LinkedView(v, w, h, name) by { hide Inv; hide LinkedEntry; }
    LinkedKeepsInv(v, w, h, name, now) by { hide Inv; hide LinkedEntry; }
    hide Inv;
    hide LinkedEntry;
  }

  lemma SoundGives(v: Volume)
    requires Sound(v)
    ensures IsTree(View(v)) && CacheOk(v.cache, View(v), v.disk.counter)
    ensures v.entries.Keys <= v.disk.m.Keys && View(v).Keys == v.disk.m.Keys
    ensures forall h <- v.disk.m :: h < v.disk.counter
  {
  }

  lemma ViewAt(v: Volume, h: nat)
    requires h in v.disk.m
    ensures h in View(v) && View(v)[h] == if h in v.entries then v.entries[h].rec else v.disk.m[h]
  {
  }

  lemma MakeInv(v: Volume, w: Volume, h: nat, now: int)
    requires Inv(v, now) && Sound(w) && h in v.entries
    requires forall x <- w.disk.m :: (x in v.disk.m && w.disk.m[x] == v.disk.m[x]) || StoredOk(w.disk.m[x], x)
    requires w.entries.Keys == v.entries.Keys
    requires forall x <- w.entries :: x != h ==> w.entries[x] == v.entries[x] && w.disk.m[x] == v.disk.m[x]
    requires w.entries[h].dirty && (ExpiryOk(v.entries[h].rec) ==> ExpiryOk(w.entries[h].rec))
    ensures Inv(w, now)
  {
    hide *;
    InvGives(v, now);
    SoundGives(w);
    forall x | x in w.disk.m ensures StoredOk(w.disk.m[x], x) {
    }
    forall x | x in w.entries ensures EntryOk(w.disk, x, w.entries[x], now) {
      EntryGives(v, x, now);
      if x == h {
        DirtyEntryOk(w.disk, h, w.entries[h], now);
      } else {
        MakeEntryOk(w.disk, x, w.entries[x], now);
      }
    }
    InvFrom(w, now);
  }

  lemma DirtyEntryOk(disk: Spec, h: nat, e: Entry, now: int)
    requires h in disk.m && ExpiryOk(e.rec) && e.dirty
    ensures EntryOk(disk, h, e, now)
  {
  }

  lemma MakeEntryOk(disk: Spec, h: nat, e: Entry, now: int)
    requires h in disk.m && ExpiryOk(e.rec) && (!e.dirty ==> Same(e.rec, disk.m[h], now))
    ensures EntryOk(disk, h, e, now)
  {
  }

  lemma InvFrom(v: Volume, now: int)
    requires Sound(v) && v.entries.Keys <= v.disk.m.Keys
    requires forall x <- v.disk.m :: StoredOk(v.disk.m[x], x)
    requires forall x <- v.entries :: EntryOk(v.disk, x, v.entries[x], now)
    ensures Inv(v, now)
  {
  }

  lemma InvSound(v: Volume, now: int)
    requires Inv(v, now)
    ensures Sound(v)
  {
  }

  lemma LinkedEntryOk(r: Rec, name: Bytes, c: nat)
    ensures LinkedEntry(r, name, c).dirty && (ExpiryOk(r) ==> ExpiryOk(LinkedEntry(r, name, c).rec))
  {
  }

  lemma LinkedKeepsInv(v: Volume, w: Volume, h: nat, name: Bytes, now: int)
    requires Inv(v, now) && h in v.entries && name !in v.entries[h].rec.children
    requires View(w) == Linked(View(v), h, name, v.disk.counter) && w.cache == v.cache
    requires w.disk == Spec(v.disk.m[v.disk.counter := NewRec(v.disk.counter, name).(parent := h)], v.disk.counter + 1)
    requires w.entries == v.entries[h := LinkedEntry(v.entries[h].rec, name, v.disk.counter)]
    ensures Inv(w, now)
  {
    hide *;
    InvSound(v, now);
    SoundGives(v);
    LinkedSound(v, w, h, name);
    NewRecStored(v.disk, v.disk.counter, h, name, now);
    LinkedEntryOk(v.entries[h].rec, name, v.disk.counter);
    MakeInv(v, w, h, now);
  }

  lemma LinkedSound(v: Volume, w: Volume, h: nat, name: Bytes)
    requires Sound(v) && h in v.disk.m && h in v.entries && name !in v.entries[h].rec.children
    requires View(w) == Linked(View(v), h, name, v.disk.counter) && w.cache == v.cache
    requires w.disk.counter == v.disk.counter + 1 && w.entries.Keys == v.entries.Keys
    ensures Sound(w)
  {
    hide Sound;
    hide IsTree;
    hide CacheOk;
    hide View;
    hide Linked;
    ViewAt(v, h);
    SoundGives(v);
    LinkedTree(v.cache, View(v), h, name, v.disk.counter);
    SoundOf(w, v.cache, View(w), v.disk.counter + 1);
  }

  lemma SoundOf(v: Volume, cache: Cache<Bytes, nat>, t: Tree, limit: nat)
    requires View(v) == t && v.cache == cache && v.disk.counter == limit && v.entries.Keys <= t.Keys
    requires IsTree(t) && CacheOk(cache, t, limit) && forall x <- t :: x < limit
    ensures Sound(v)
  {
    hide IsTree;
    hide CacheOk;
    ViewDomain(v);
  }

  lemma LinkedTree(cache: Cache<Bytes, nat>, t: Tree, h: nat, name: Bytes, c: nat)
    requires IsTree(t) && h in t && name !in t[h].children && CacheOk(cache, t, c) && forall x <- t :: x < c
    ensures var u := Linked(t, h, name, c);
            IsTree(u) && CacheOk(cache, u, c + 1) && u.Keys == t.Keys + {c} && forall x <- u :: x < c + 1
  {
    hide IsTree;
    hide CacheOk;
    hide Linked;
    LinkedIsTree(t, h, name, c);
    LinkedCacheOk(cache, t, h, name, c);
    LinkedDomain(t, h, name, c);
  }

  lemma ViewDomain(v: Volume)
    ensures View(v).Keys == v.disk.m.Keys
  {
  }

  lemma LinkedDomain(t: Tree, h: nat, name: Bytes, c: nat)
    requires h in t
    ensures Linked(t, h, name, c).Keys == t.Keys + {c}
  {
  }

  lemma UnlinkResult(v: Volume, h: nat, name: Bytes)
    requires Unlink(v, h, name).0.Ok?
    ensures h in v.entries && name in v.entries[h].rec.children
    ensures var c := v.entries[h].rec.children[name];
            && c !in v.entries && c in v.disk.m && v.disk.m[c].children == map[]
            && Unlink(v, h, name).1 == v.(disk := v.disk.(m := v.disk.m - {c}),
                                          entries := v.entries[h := UnlinkedEntry(v.entries[h].rec, c)])
  {
  }

  function UnlinkedEntry(r: Rec, c: nat): Entry {
    Entry(r.(children := WithoutHandle(r.children, c)), true)
  }

  lemma UnlinkedView(v: Volume, w: Volume, h: nat, c: nat)
    requires h in v.disk.m && h in v.entries && c !in v.entries && c in v.disk.m
    requires w.disk.m == v.disk.m - {c} && w.entries == v.entries[h := UnlinkedEntry(v.entries[h].rec, c)]
    ensures View(w) == Unlinked(View(v), h, c)
  {
  }

  lemma UnlinkedSound(v: Volume, w: Volume, h: nat, name: Bytes)
    requires Sound(v) && h in v.entries && name in v.entries[h].rec.children
    requires var c := v.entries[h].rec.children[name]; c !in v.entries && c in v.disk.m && v.disk.m[c].children == map[]
    requires View(w) == Unlinked(View(v), h, v.entries[h].rec.children[name]) && w.cache == v.cache
    requires w.disk.counter == v.disk.counter && w.entries.Keys == v.entries.Keys
    ensures Sound(w)
  {
    hide Sound;
    hide IsTree;
    hide CacheOk;
    hide View;
    hide Unlinked;
    var t, c := View(v), v.entries[h].rec.children[name];
    SoundGives(v);
    ViewAt(v, h);
    ViewAt(v, c);
    UnlinkedIsTree(t, h, name);
    UnlinkedCacheOk(v.cache, t, h, c, v.disk.counter);
    UnlinkedDomain(t, h, c);
    SoundOf(w, v.cache, View(w), v.disk.counter);
  }

  lemma UnlinkedDomain(t: Tree, h: nat, c: nat)
    requires h in t
    ensures Unlinked(t, h, c).Keys == t.Keys - {c}
  {
  }

  /** An unlink that succeeds removes one closed leaf. */
  lemma UnlinkRemovesLeaf(v: Volume, h: nat, name: Bytes, now: int)
    requires Inv(v, now) && Unlink(v, h, name).0.Ok?
    ensures var w := Unlink(v, h, name).1;
            && h in v.entries && name in v.entries[h].rec.children
            && var c := v.entries[h].rec.children[name];
               && c !in v.entries && c in v.disk.m && v.disk.m[c].children == map[]
               && w.disk.counter == v.disk.counter && w.entries.Keys == v.entries.Keys && w.cache == v.cache
               && View(w) == Unlinked(View(v), h, c)
               && Inv(w, now)
  {
    hide *;
    UnlinkResult(v, h, name);
    var w, c := Unlink(v, h, name).1, v.entries[h].rec.children[name];
    InvGives(v, now);
    InvSound(v, now);
    UnlinkedView(v, w, h, c);
    UnlinkedSound(v, w, h, name);
    UnlinkedEntryOk(v.entries[h].rec, c);
    MakeInv(v, w, h, now);
  }

  lemma UnlinkedEntryOk(r: Rec, c: nat)
    ensures UnlinkedEntry(r, c).dirty && (ExpiryOk(r) ==> ExpiryOk(UnlinkedEntry(r, c).rec))
  {
  }
}
