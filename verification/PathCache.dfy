// The path cache against the plain walk: what a cached path may stand for, and when a lookup
// by path finds exactly what a walk from the root finds (lib/ondisk/Volume_p.hpp).

module PathCaches {
  import opened Wrappers
  import opened Serialization
  import opened Records
  import opened Paths
  import opened MRUCaches
  import opened Volumes

  /** A cached handle is the one the walk finds, or no longer stored; it was issued either way. */
  predicate CachedOk(t: Tree, limit: nat, cs: Path, h: nat) {
    h < limit && (h in t ==> Walk(t, ROOT_HANDLE, cs) == Some(h))
  }

  /** Only canonical paths matter: no other key is ever looked up. */
  ghost predicate CacheOk(cache: Cache<Bytes, nat>, t: Tree, limit: nat) {
    && WellFormed(cache, PATH_CACHE_SIZE)
    && forall cs :: Names(cs) && Resident(cache, PathString(cs)) ==>
        CachedOk(t, limit, cs, ValueOf(cache, PathString(cs)))
  }

  ghost predicate Sound(v: Volume) {
    && v.entries.Keys <= v.disk.m.Keys
    && IsTree(View(v))
    && (forall h <- v.disk.m :: h < v.disk.counter)
    && CacheOk(v.cache, View(v), v.disk.counter)
  }

  /** The longest cached prefix of the path stands for a handle that is gone. */
  predicate Stale(v: Volume, cs: Path) {
    var (hit, _) := SearchCached(v.cache, cs);
    hit.Some? && hit.value.0 !in v.disk.m
  }

  lemma ApplyOk(cache: Cache<Bytes, nat>, op: CacheOp<Bytes, nat>, t: Tree, limit: nat)
    requires CacheOk(cache, t, limit)
    requires op.InsertOp? ==> forall cs :: Names(cs) && PathString(cs) == op.key ==> CachedOk(t, limit, cs, op.value)
    ensures CacheOk(Apply(cache, op, PATH_CACHE_SIZE), t, limit)
  {
    ApplyWellFormed(cache, op, PATH_CACHE_SIZE);
    var c1 := Apply(cache, op, PATH_CACHE_SIZE);
    hide Apply;
    hide CachedOk;
    hide PathString;
    forall cs | Names(cs) && Resident(c1, PathString(cs)) ensures CachedOk(t, limit, cs, ValueOf(c1, PathString(cs))) {
      ApplyValues(cache, op, PATH_CACHE_SIZE, PathString(cs));
    }
  }

  /** The search tries the path and then its ancestors, and touches the one that hits. */
  lemma {:induction false} SearchFinds(cache: Cache<Bytes, nat>, cs: Path, t: Tree, limit: nat)
    requires CacheOk(cache, t, limit) && Names(cs)
    ensures var (hit, cache1) := SearchCached(cache, cs);
            && CacheOk(cache1, t, limit)
            && (hit.Some? ==> hit.value.1 <= cs && CachedOk(t, limit, hit.value.1, hit.value.0))
    decreases |cs|
  {
    hide CachedOk;
    if Resident(cache, PathString(cs)) {
      ApplyOk(cache, LookupOp(PathString(cs)), t, limit);
      assert cs[..|cs|] == cs;
    } else if cs != [] {
      var up := cs[..|cs| - 1];
      SearchFinds(cache, up, t, limit);
      assert up <= cs;
    }
  }

  /** A hit is the longest cached prefix, with the handle cached for it; a miss means none is cached. */
  lemma {:induction false} SearchIsLongest(cache: Cache<Bytes, nat>, cs: Path)
    ensures match SearchCached(cache, cs).0
            case Some(hf) => hf.1 <= cs && Found(cache, PathString(hf.1)) == Some(hf.0)
                             && forall n :: |hf.1| < n <= |cs| ==> !Resident(cache, PathString(cs[..n]))
            case None => forall n :: 0 <= n <= |cs| ==> !Resident(cache, PathString(cs[..n]))
    decreases |cs|
  {
    hide PathString;
    hide Resident;
    assert cs[..|cs|] == cs;
    if Found(cache, PathString(cs)) == None && cs != [] {
      var up := cs[..|cs| - 1];
      SearchIsLongest(cache, up);
      assert up <= cs;
      assert forall n :: 0 <= n <= |up| ==> up[..n] == cs[..n];
      NotFound(cache, PathString(cs));
    } else if cs == [] {
      NotFound(cache, PathString(cs));
    }
  }

  lemma NotFound(cache: Cache<Bytes, nat>, k: Bytes)
    ensures Found(cache, k) == None <==> !Resident(cache, k)
  {
  }

  /** The path tracked by the walk, or that path behind one separator too many. */
  predicate Tracks(track: Bytes, done: Path) {
    track == Joined(done) || track == [SEPARATOR] + Joined(done)
  }

  lemma TracksNext(track: Bytes, done: Path, c: Bytes)
    requires Tracks(track, done)
    ensures Tracks(track + ([SEPARATOR] + c), done + [c])
  {
    JoinedLast(done, c);
    assert Joined(done) + [SEPARATOR] + c == Joined(done) + ([SEPARATOR] + c);
    assert [SEPARATOR] + Joined(done) + ([SEPARATOR] + c) == [SEPARATOR] + (Joined(done) + ([SEPARATOR] + c));
  }

  /** As a cache key, a tracked path can only be mistaken for the path it tracks. */
  lemma TracksOnly(track: Bytes, done: Path, cs: Path)
    requires Tracks(track, done) && done != [] && Names(done) && Names(cs) && PathString(cs) == track
    ensures cs == done
  {
    PathStringIsSimple(cs);
    PathStringIsSimple(done);
    SplitAfterSeparator(Joined(done));
  }

  /** One step down: the child is reached by the longer path, which may be cached. */
  lemma StepDown(v: Volume, h: nat, done: Path, n: Bytes, track: Bytes)
    requires Sound(v) && Names(done) && Name(n) && Tracks(track, done)
    requires CachedOk(View(v), v.disk.counter, done, h) && h in v.disk.m && n in View(v)[h].children
    ensures var c, track1 := View(v)[h].children[n], track + ([SEPARATOR] + n);
            var v1 := v.(cache := Inserted(v.cache, track1, c, PATH_CACHE_SIZE));
            && c in v.disk.m && Names(done + [n]) && Tracks(track1, done + [n])
            && Sound(v1) && View(v1) == View(v)
            && CachedOk(View(v), v.disk.counter, done + [n], c)
  {
    var t, limit := View(v), v.disk.counter;
    var c, done1, track1 := t[h].children[n], done + [n], track + ([SEPARATOR] + n);
    assert IsChild(t, h, n, c);
    WalkConcat(t, ROOT_HANDLE, done, [n]);
    OneStep(t, h, n);
    TracksNext(track, done, n);
    hide IsTree;
    hide Walk;
    forall cs | Names(cs) && PathString(cs) == track1 ensures CachedOk(t, limit, cs, c) {
      TracksOnly(track1, done1, cs);
    }
    CacheInsertKeepsSound(v, track1, c);
  }

  lemma WalkDownUnfolds(v: Volume, h: nat, tokens: Path, track: Bytes)
    requires v.entries.Keys <= v.disk.m.Keys
    ensures WalkDown(v, h, tokens, track)
            == if tokens == [] then (Some(h), v)
               else if h !in v.disk.m || tokens[0] !in View(v)[h].children then (None, v)
               else var c, track1 := View(v)[h].children[tokens[0]], track + ([SEPARATOR] + tokens[0]);
                    WalkDown(v.(cache := Inserted(v.cache, track1, c, PATH_CACHE_SIZE)), c, tokens[1..], track1)
  {
  }

  /** From a handle that the walk reaches (or that is gone), walking down does what the plain walk does. */
  lemma {:induction false} WalkDownFinds(v: Volume, h: nat, done: Path, tokens: Path, track: Bytes)
    requires Sound(v) && Names(done) && Names(tokens) && Tracks(track, done)
    requires CachedOk(View(v), v.disk.counter, done, h)
    ensures var (found, v1) := WalkDown(v, h, tokens, track);
            && v1 == v.(cache := v1.cache) && Sound(v1)
            && (h in v.disk.m ==> found == Walk(View(v), h, tokens))
            && (h !in v.disk.m ==> found == if tokens == [] then Some(h) else None)
    decreases |tokens|
  {
    assert v.entries.Keys <= v.disk.m.Keys;
    WalkDownUnfolds(v, h, tokens, track);
    hide Sound;
    hide CachedOk;
    hide Tracks;
    hide WalkDown;
    hide Inserted;
    if tokens != [] && h in v.disk.m && tokens[0] in View(v)[h].children {
      assert Name(tokens[0]);
      assert Names(tokens[1..]) by { PrefixNames(tokens, 1); }
      var c, track1 := View(v)[h].children[tokens[0]], track + ([SEPARATOR] + tokens[0]);
      var v1 := v.(cache := Inserted(v.cache, track1, c, PATH_CACHE_SIZE));
      StepDown(v, h, done, tokens[0], track);
      WalkDownFinds(v1, c, done + [tokens[0]], tokens[1..], track1);
    }
  }

  lemma CacheInsertKeepsSound(v: Volume, key: Bytes, h: nat)
    requires Sound(v)
    requires forall cs :: Names(cs) && PathString(cs) == key ==> CachedOk(View(v), v.disk.counter, cs, h)
    ensures Sound(v.(cache := Inserted(v.cache, key, h, PATH_CACHE_SIZE)))
    ensures View(v.(cache := Inserted(v.cache, key, h, PATH_CACHE_SIZE))) == View(v)
  {
    hide IsTree;
    hide CachedOk;
    ApplyOk(v.cache, InsertOp(key, h), View(v), v.disk.counter);
  }

  /** Looking up a path: nothing live when the longest cached prefix is stale, else exactly the walk. */
  lemma FindHandleIsWalk(v: Volume, cs: Path)
    requires Sound(v) && Names(cs)
    ensures var (found, v1) := FindHandle(v, cs);
            && v1 == v.(cache := v1.cache) && Sound(v1)
            && (Stale(v, cs) ==> found.None? || found.value !in v.disk.m)
            && (!Stale(v, cs) ==> found == Walk(View(v), ROOT_HANDLE, cs))
  {
    hide *;
    var t := View(v);
    SoundCache(v);
    SearchFinds(v.cache, cs, t, v.disk.counter);
    FindHandleUnfolds(v, cs);
    StaleUnfolds(v, cs);
    var (hit, cache) := SearchCached(v.cache, cs);
    if hit.Some? {
      FoundWalks(v, hit.value.0, hit.value.1, cs, cache);
    } else {
      RootAlways(v);
      SearchMisses(v.cache, cs);
      RootWalks(v, cs);
    }
  }

  lemma SoundCache(v: Volume)
    requires Sound(v)
    ensures CacheOk(v.cache, View(v), v.disk.counter)
  {
  }

  /** Another well-kept cache, the same soundness. */
  lemma CacheReplaced(v: Volume, cache: Cache<Bytes, nat>)
    requires Sound(v) && CacheOk(cache, View(v), v.disk.counter)
    ensures Sound(v.(cache := cache)) && View(v.(cache := cache)) == View(v)
  {
  }

  lemma StaleUnfolds(v: Volume, cs: Path)
    ensures var hit := SearchCached(v.cache, cs).0;
            Stale(v, cs) == (hit.Some? && hit.value.0 !in v.disk.m)
  {
  }

  lemma FindHandleUnfolds(v: Volume, cs: Path)
    ensures var (hit, cache) := SearchCached(v.cache, cs);
            match hit
            case Some(hf) => |hf.1| <= |cs| ==>
              FindHandle(v, cs) == WalkDown(v.(cache := cache), hf.0, cs[|hf.1|..], PathString(hf.1))
            case None =>
              FindHandle(v, cs)
              == WalkDown(v.(cache := Inserted(cache, [SEPARATOR], ROOT_HANDLE, PATH_CACHE_SIZE)), ROOT_HANDLE, cs, [])
  {
  }

  lemma RootAlways(v: Volume)
    requires Sound(v)
    ensures ROOT_HANDLE in v.disk.m && CachedOk(View(v), v.disk.counter, [], ROOT_HANDLE)
  {
  }

  /** The walk from a cached prefix. */
  lemma FoundWalks(v: Volume, h: nat, done: Path, cs: Path, cache: Cache<Bytes, nat>)
    requires Sound(v) && Names(cs) && done <= cs && CacheOk(cache, View(v), v.disk.counter)
    requires CachedOk(View(v), v.disk.counter, done, h)
    ensures var (found, v1) := WalkDown(v.(cache := cache), h, cs[|done|..], PathString(done));
            && v1 == v.(cache := v1.cache) && Sound(v1)
            && (h in v.disk.m ==> found == Walk(View(v), ROOT_HANDLE, cs))
            && (h !in v.disk.m ==> found.None? || found.value !in v.disk.m)
  {
    hide *;
    CacheReplaced(v, cache);
    PrefixNames(cs, |done|);
    assert cs == done + cs[|done|..] && done == cs[..|done|];
    PathStringTracks(done);
    WalkDownFinds(v.(cache := cache), h, done, cs[|done|..], PathString(done));
    WalkConcat(View(v), ROOT_HANDLE, done, cs[|done|..]);
    CachedWalk(v, h, done);
  }

  lemma CachedWalk(v: Volume, h: nat, done: Path)
    requires CachedOk(View(v), v.disk.counter, done, h)
    ensures h in v.disk.m ==> Walk(View(v), ROOT_HANDLE, done) == Some(h)
  {
  }

  /** The walk from the root, which is now cached. */
  lemma RootWalks(v: Volume, cs: Path)
    requires Sound(v) && Names(cs) && ROOT_HANDLE in v.disk.m && CachedOk(View(v), v.disk.counter, [], ROOT_HANDLE)
    ensures var v0 := v.(cache := Inserted(v.cache, [SEPARATOR], ROOT_HANDLE, PATH_CACHE_SIZE));
            var (found, v1) := WalkDown(v0, ROOT_HANDLE, cs, []);
            v1 == v.(cache := v1.cache) && Sound(v1) && found == Walk(View(v), ROOT_HANDLE, cs)
  {
    NothingTracked();
    hide *;
    forall xs | Names(xs) && PathString(xs) == [SEPARATOR] ensures CachedOk(View(v), v.disk.counter, xs, ROOT_HANDLE) {
      PathStringInjective(xs, []);
    }
    CacheInsertKeepsSound(v, [SEPARATOR], ROOT_HANDLE);
    WalkDownFinds(v.(cache := Inserted(v.cache, [SEPARATOR], ROOT_HANDLE, PATH_CACHE_SIZE)), ROOT_HANDLE, [], cs, []);
  }

  lemma NothingTracked()
    ensures Tracks([], []) && Names([]) && PathString([]) == [SEPARATOR]
  {
  }

  lemma PrefixNames(cs: Path, n: nat)
    requires Names(cs) && n <= |cs|
    ensures Names(cs[..n]) && Names(cs[n..])
  {
  }

  lemma PathStringTracks(done: Path)
    ensures Tracks(PathString(done), done)
  {
  }

  lemma {:induction false} SearchMisses(cache: Cache<Bytes, nat>, cs: Path)
    requires SearchCached(cache, cs).0.None?
    ensures SearchCached(cache, cs).1 == cache
    decreases |cs|
  {
    if cs != [] && !Resident(cache, PathString(cs)) {
      SearchMisses(cache, cs[..|cs| - 1]);
    }
  }

  /**
   * The path cache agrees with the walk. An entry found by path is always the one a walk from
   * the root finds, and the two agree exactly unless the longest cached prefix is stale and the
   * walk would have found something.
   */
  lemma EntryIsWalk(v: Volume, path: Bytes, now: int)
    requires Sound(v)
    ensures var found := FindEntry(v, path, now).0;
            var walk := Walk(View(v), ROOT_HANDLE, ComponentsOf(path));
            && (found.Some? ==> found == walk)
            && (found == walk <==> !Stale(v, ComponentsOf(path)) || walk == None)
  {
    var cs := ComponentsOf(path);
    ComponentsAreNames(path);
    FindHandleIsWalk(v, cs);
    WalkStaysIn(View(v), ROOT_HANDLE, cs);
    hide FindHandle;
    hide Sound;
    hide Walk;
    hide Stale;
  }

  // ---------------------------------------------------------------------------
  // What a lookup caches

  /** An insert puts its key first and moves any other key back by at most one place. */
  lemma InsertShifts(cache: Cache<Bytes, nat>, key: Bytes, h: nat, k: Bytes)
    ensures IndexOf(Inserted(cache, key, h, PATH_CACHE_SIZE), key) == 0
    ensures Resident(cache, k) && IndexOf(cache, k) + 1 < PATH_CACHE_SIZE ==>
              && Resident(Inserted(cache, key, h, PATH_CACHE_SIZE), k)
              && IndexOf(Inserted(cache, key, h, PATH_CACHE_SIZE), k) <= IndexOf(cache, k) + 1
    ensures Resident(Inserted(cache, key, h, PATH_CACHE_SIZE), k) ==> k == key || Resident(cache, k)
  {
    var c1 := Inserted(cache, key, h, PATH_CACHE_SIZE);
    var at := IndexOf(cache, key);
    assert c1[0].0 == key;
    if Resident(cache, k) && IndexOf(cache, k) + 1 < PATH_CACHE_SIZE {
      var i := IndexOf(cache, k);
      var j := if !Resident(cache, key) || i < at then i + 1 else if i == at then 0 else i;
      assert j < |c1| && c1[j].0 == k;
    }
    if Resident(c1, k) {
      var j := IndexOf(c1, k);
      assert c1[j].0 == k;
      if Resident(cache, key) {
        assert c1[j] in cache;
      } else {
        assert c1[j] in [(key, h)] + cache;
      }
    }
  }

  /** A walk that finds something leaves the key of every step it took in the cache. */
  lemma {:induction false} WalkDownCaches(v: Volume, h: nat, tokens: Path, track: Bytes, n: nat)
    requires v.entries.Keys <= v.disk.m.Keys && WalkDown(v, h, tokens, track).0.Some?
    requires 0 < n <= |tokens| < PATH_CACHE_SIZE
    ensures var c := WalkDown(v, h, tokens, track).1.cache;
            Resident(c, track + Joined(tokens[..n])) && IndexOf(c, track + Joined(tokens[..n])) <= |tokens| - n
    decreases |tokens|
  {
    WalkDownUnfolds(v, h, tokens, track);
    var c, track1 := View(v)[h].children[tokens[0]], track + ([SEPARATOR] + tokens[0]);
    var v1 := v.(cache := Inserted(v.cache, track1, c, PATH_CACHE_SIZE));
    InsertShifts(v.cache, track1, c, track1);
    JoinedStep(tokens, n, track);
    hide WalkDown;
    hide Inserted;
    hide Joined;
    if n > 1 {
      WalkDownCaches(v1, c, tokens[1..], track1, n - 1);
    } else {
      WalkDownKeepsKey(v1, c, tokens[1..], track1, track1);
    }
  }

  lemma JoinedStep(tokens: Path, n: nat, track: Bytes)
    requires 0 < n <= |tokens|
    ensures track + Joined(tokens[..n]) == track + ([SEPARATOR] + tokens[0]) + Joined(tokens[1..][..n - 1])
    ensures n == 1 ==> track + Joined(tokens[..n]) == track + ([SEPARATOR] + tokens[0])
  {
    assert tokens[..n][0] == tokens[0] && tokens[..n][1..] == tokens[1..][..n - 1];
  }

  /** A key near enough to the front survives a walk. */
  lemma {:induction false} WalkDownKeepsKey(v: Volume, h: nat, tokens: Path, track: Bytes, k: Bytes)
    requires v.entries.Keys <= v.disk.m.Keys
    requires Resident(v.cache, k) && IndexOf(v.cache, k) + |tokens| < PATH_CACHE_SIZE
    ensures var c := WalkDown(v, h, tokens, track).1.cache;
            Resident(c, k) && IndexOf(c, k) <= IndexOf(v.cache, k) + |tokens|
    decreases |tokens|
  {
    WalkDownUnfolds(v, h, tokens, track);
    hide WalkDown;
    hide Inserted;
    if tokens != [] && h in v.disk.m && tokens[0] in View(v)[h].children {
      var c, track1 := View(v)[h].children[tokens[0]], track + ([SEPARATOR] + tokens[0]);
      InsertShifts(v.cache, track1, c, k);
      WalkDownKeepsKey(v.(cache := Inserted(v.cache, track1, c, PATH_CACHE_SIZE)), c, tokens[1..], track1, k);
    }
  }

  /**
   * A lookup that finds its path with no prefix of it cached leaves the path in the cache: the
   * next lookup of it hits.
   */
  lemma MissCaches(v: Volume, cs: Path)
    requires Sound(v) && Names(cs) && SearchCached(v.cache, cs).0 == None && FindHandle(v, cs).0.Some?
    requires |cs| < PATH_CACHE_SIZE
    ensures var hit := SearchCached(FindHandle(v, cs).1.cache, cs).0; hit.Some? && hit.value.1 == cs
  {
    FindHandleUnfolds(v, cs);
    SearchMisses(v.cache, cs);
    assert v.entries.Keys <= v.disk.m.Keys;
    var v0 := v.(cache := Inserted(v.cache, [SEPARATOR], ROOT_HANDLE, PATH_CACHE_SIZE));
    InsertShifts(v.cache, [SEPARATOR], ROOT_HANDLE, [SEPARATOR]);
    hide FindHandle;
    hide Inserted;
    if cs == [] {
      WalkDownUnfolds(v0, ROOT_HANDLE, cs, []);
    } else {
      WalkDownCaches(v0, ROOT_HANDLE, cs, [], |cs|);
      assert cs[..|cs|] == cs && [] + Joined(cs) == Joined(cs);
    }
    hide WalkDown;
    ResidentHits(FindHandle(v, cs).1.cache, cs);
  }

  lemma ResidentHits(cache: Cache<Bytes, nat>, cs: Path)
    requires Resident(cache, PathString(cs))
    ensures var hit := SearchCached(cache, cs).0; hit.Some? && hit.value.1 == cs
  {
  }

  /** No path string begins with two separators. */
  lemma DoubledIsNoPath(track: Bytes, cs: Path)
    requires Names(cs) && |track| >= 2 && track[0] == track[1] == SEPARATOR
    ensures PathString(cs) != track
  {
    if cs != [] {
      assert Name(cs[0]);
      assert Joined(cs)[1] == cs[0][0];
    }
  }

  /** The walk from a cached root tracks paths with a separator too many: no path is cached by it. */
  lemma {:induction false} DoubledWalkCachesNothing(v: Volume, h: nat, tokens: Path, track: Bytes, cs: Path)
    requires v.entries.Keys <= v.disk.m.Keys && Names(cs)
    requires track == [SEPARATOR] || (|track| >= 2 && track[0] == track[1] == SEPARATOR)
    ensures Resident(WalkDown(v, h, tokens, track).1.cache, PathString(cs)) ==> Resident(v.cache, PathString(cs))
    decreases |tokens|
  {
    WalkDownUnfolds(v, h, tokens, track);
    hide WalkDown;
    hide Inserted;
    hide PathString;
    if tokens != [] && h in v.disk.m && tokens[0] in View(v)[h].children {
      var c, track1 := View(v)[h].children[tokens[0]], track + ([SEPARATOR] + tokens[0]);
      DoubledIsNoPath(track1, cs);
      InsertShifts(v.cache, track1, c, PathString(cs));
      DoubledWalkCachesNothing(v.(cache := Inserted(v.cache, track1, c, PATH_CACHE_SIZE)), c, tokens[1..], track1, cs);
    }
  }

  /**
   * A lookup whose longest cached prefix is the root caches no path at all, so that the same lookup
   * walks from the root again.
   */
  lemma RootHitCachesNothing(v: Volume, cs: Path, other: Path)
    requires v.entries.Keys <= v.disk.m.Keys && Names(cs) && Names(other)
    requires var hit := SearchCached(v.cache, cs).0; hit.Some? && hit.value.1 == []
    ensures Resident(FindHandle(v, cs).1.cache, PathString(other)) ==> Resident(v.cache, PathString(other))
  {
    FindHandleUnfolds(v, cs);
    var (hit, cache) := SearchCached(v.cache, cs);
    assert PathString([]) == [SEPARATOR];
    DoubledWalkCachesNothing(v.(cache := cache), hit.value.0, cs[0..], [SEPARATOR], other);
    SearchAddsNothing(v.cache, cs, PathString(other));
    hide FindHandle;
    hide WalkDown;
    hide SearchCached;
  }

  lemma {:induction false} SearchAddsNothing(cache: Cache<Bytes, nat>, cs: Path, k: Bytes)
    ensures Resident(SearchCached(cache, cs).1, k) ==> Resident(cache, k)
    decreases |cs|
  {
    hide PathString;
    if Resident(cache, PathString(cs)) {
      TouchAddsNothing(cache, PathString(cs), k);
    } else if cs != [] {
      SearchAddsNothing(cache, cs[..|cs| - 1], k);
    }
  }

  lemma TouchAddsNothing(cache: Cache<Bytes, nat>, key: Bytes, k: Bytes)
    ensures Resident(Touch(cache, key), k) ==> Resident(cache, k)
  {
    var c1 := Touch(cache, key);
    if Resident(c1, k) {
      var j := IndexOf(c1, k);
      assert c1[j] in cache;
    }
  }
}
