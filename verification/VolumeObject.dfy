// The mutable volume: its table of open entries, its path cache, and the walk down from the
// root (lib/ondisk/Volume_p.hpp, lib/ondisk/Entry.cpp), each tied to the functions of Volumes.

module VolumeObjects {
  import opened Wrappers
  import opened Serialization
  import opened Properties
  import opened Records
  import opened EngineRuns
  import opened Paths
  import opened MRUCaches
  import opened ClaimTokens
  import opened V = Volumes

  predicate Keyed(m: map<nat, Rec>) {
    forall h <- m :: m[h].key == h
  }

  lemma StoredKeyed(s: Spec, r: Rec, now: int)
    requires Keyed(s.m)
    ensures Keyed(Stored(s, r, now).m)
  {
  }

  lemma KeyedAt(m: map<nat, Rec>, h: nat, now: int)
    requires Keyed(m) && h in m
    ensures Cleanup(m[h], now).key == h
  {
  }

  lemma DroppedKeyed(s: Spec, h: nat)
    requires Keyed(s.m)
    ensures Keyed(Dropped(s, h).m)
  {
  }

  /** The engine behind a volume, as the map it refines; `accepted` is the disk's answer to a save. */
  class Store {
    var spec: Spec

    constructor (s: Spec)
      ensures spec == s
    {
      spec := s;
    }

    method NewKey() returns (key: nat)
      modifies this
      ensures key == old(spec.counter) && spec == old(spec).(counter := key + 1)
    {
      key := spec.counter;
      spec := spec.(counter := key + 1);
    }

    method Save(r: Rec, accepted: bool, now: int) returns (status: Status)
      modifies this
      ensures status == if accepted then Ok else IOError
      ensures spec == if accepted then Stored(old(spec), r, now) else old(spec)
    {
      if !accepted {
        return IOError;
      }
      spec := spec.(m := spec.m[r.key := Cleanup(r, now)]);
      status := Ok;
    }

    method Load(key: nat, now: int) returns (status: Status, r: Rec)
      ensures status == if key in spec.m then Ok else InvalidArgument
      ensures key in spec.m ==> r == Cleanup(spec.m[key], now)
    {
      if key !in spec.m {
        return InvalidArgument, NewRec(INVALID_HANDLE, []);
      }
      return Ok, Cleanup(spec.m[key], now);
    }

    method Remove(key: nat) returns (status: Status)
      modifies this
      ensures status == if key in old(spec.m) then Ok else InvalidArgument
      ensures spec == Dropped(old(spec), key)
    {
      status := if key in spec.m then Ok else InvalidArgument;
      spec := spec.(m := spec.m - {key});
    }
  }

  /** An open entry (lib/ondisk/Entry.cpp): a mutation that succeeds raises the dirty flag. */
  class OpenEntry {
    var rec: Rec
    var dirty: bool

    constructor (r: Rec)
      ensures rec == r && !dirty
    {
      rec := r;
      dirty := false;
    }

    function View(): Entry
      reads this
    {
      Entry(rec, dirty)
    }

    method HasProperty(prop: Bytes, now: int) returns (has: bool)
      ensures has == HasProp(rec, prop, now)
    {
      has := !(prop in rec.expiry && rec.expiry[prop] <= now) && prop in rec.props;
    }

    method Property(prop: Bytes, now: int) returns (value: Option<Properties.Property>)
      ensures value == GetProp(rec, prop, now)
    {
      var has := HasProperty(prop, now);
      value := if has then Some(rec.props[prop]) else None;
    }

    method AllProperties(now: int) returns (props: map<Bytes, Properties.Property>)
      ensures props == VisibleProps(rec, now)
    {
      props := VisibleProps(rec, now);
    }

    method SetProperty(prop: Bytes, value: Properties.Property, ghost now: int) returns (status: Status)
      modifies this
      ensures status == MutationStatus(old(rec), SetP(prop, value), now) == Ok
      ensures rec == Mutated(old(rec), SetP(prop, value), now) && dirty
    {
      rec := rec.(expiry := rec.expiry - {prop}, props := rec.props[prop := value]);
      dirty := true;
      status := Ok;
    }

    method RemoveProperty(prop: Bytes, ghost now: int) returns (status: Status)
      modifies this
      ensures status == MutationStatus(old(rec), RemoveP(prop), now)
      ensures rec == Mutated(old(rec), RemoveP(prop), now) && dirty == (old(dirty) || status.Ok?)
    {
      rec := rec.(expiry := rec.expiry - {prop});
      if prop !in rec.props {
        assert rec.props - {prop} == rec.props;
        return NotFound;
      }
      rec := rec.(props := rec.props - {prop});
      dirty := true;
      status := Ok;
    }

    method ExpireProperty(prop: Bytes, ms: int, now: int) returns (status: Status)
      modifies this
      ensures status == MutationStatus(old(rec), ExpireP(prop, ms), now)
      ensures rec == Mutated(old(rec), ExpireP(prop, ms), now) && dirty == (old(dirty) || status.Ok?)
    {
      var has := HasProperty(prop, now);
      if !has {
        return NotFound;
      }
      rec := rec.(expiry := rec.expiry[prop := now + ms]);
      dirty := true;
      status := Ok;
    }

    method CancelPropertyExpiration(prop: Bytes, ghost now: int) returns (status: Status)
      modifies this
      ensures status == MutationStatus(old(rec), CancelP(prop), now) == Ok
      ensures rec == Mutated(old(rec), CancelP(prop), now) && dirty
    {
      rec := rec.(expiry := rec.expiry - {prop});
      dirty := true;
      status := Ok;
    }
  }

  // ---------------------------------------------------------------------------
  // The volume

  /** A path that the 32-bit counters of the splitter can hold, before and after simplification. */
  predicate Countable(path: Bytes) {
    |path| < TWO32 && |Simplify(path)| < TWO32
  }

  /** entry() on the path string itself, whatever its length, up to opening the handle found. */
  function FindHandle32(v: V.Volume, p: Bytes): (Option<nat>, V.Volume) {
    var path := Simplify32(p);
    var (hit, cache) := SearchCached(v.cache, Split32(path));
    match hit
    case Some(hf) =>
      var found := PathString(hf.1);
      if found == path then (Some(hf.0), v.(cache := cache))
      else WalkDown(v.(cache := cache), hf.0, Split32(if |found| <= |path| then path[|found|..] else []), found)
    case None =>
      WalkDown(v.(cache := Inserted(cache, [SEPARATOR], ROOT_HANDLE, PATH_CACHE_SIZE)), ROOT_HANDLE, Split32(path), [])
  }

  function FindEntry32(v: V.Volume, p: Bytes, now: int): (Option<nat>, V.Volume) {
    var (found, v1) := FindHandle32(v, p);
    match found
    case None => (None, v1)
    case Some(h) => OpenHandle(v1, h, now)
  }

  /** For paths the splitter can count, that is entry() on the components of the path. */
  lemma FindEntry32IsFindEntry(v: V.Volume, p: Bytes, now: int)
    requires Countable(p)
    ensures FindHandle32(v, p) == FindHandle(v, ComponentsOf(p))
    ensures FindEntry32(v, p, now) == FindEntry(v, p, now)
  {
    SimplifiedSplits(p);
    FindByWalking(v, p);
    var cs, path := ComponentsOf(p), Simplify(p);
    var hit := SearchCached(v.cache, cs).0;
    ShortSplits(p);
    ShortSplits(path);
    if hit.Some? {
      var found := PathString(hit.value.1);
      if found == path {
        FindCached(v, p);
      }
      ShortSplits(path[|found|..]);
    }
    hide WalkDown;
    hide Inserted;
    hide FindHandle;
    hide Simplify;
    hide Simplify32;
    hide Split;
    hide Split32;
    hide PathString;
    hide SearchCached;
    hide OpenHandle;
  }

  lemma ShortSplits(s: Bytes)
    requires |s| < TWO32
    ensures Split32(s) == Split(s) && Simplify32(s) == Simplify(s)
  {
    SplitRightExactly(|s|);
  }

  lemma SimplifiedSplits(path: Bytes)
    ensures Split(Simplify(path)) == ComponentsOf(path) && Names(ComponentsOf(path))
  {
    SimplifyIdempotent(path);
    ComponentsAreNames(path);
  }

  lemma {:induction false} SearchIsPrefix(cache: Cache<Bytes, nat>, cs: Path)
    ensures SearchCached(cache, cs).0.Some? ==> SearchCached(cache, cs).0.value.1 <= cs
    decreases |cs|
  {
    if !Resident(cache, PathString(cs)) && cs != [] {
      SearchIsPrefix(cache, cs[..|cs| - 1]);
      assert cs[..|cs| - 1] <= cs;
    }
  }

  lemma SearchUnfolds(cache: Cache<Bytes, nat>, cs: Path)
    ensures SearchCached(cache, cs)
            == match Found(cache, PathString(cs))
               case Some(h) => (Some((h, cs)), Touch(cache, PathString(cs)))
               case None => if cs == [] then (None, cache) else SearchCached(cache, cs[..|cs| - 1])
  {
  }

  /** The store once the open entries have been flushed but for those in `todo`. */
  ghost function FlushedBut(v: V.Volume, todo: set<nat>, accepted: set<nat>, now: int): Spec {
    FlushedOf(v, accepted - todo, now)
  }

  lemma FlushNone(v: V.Volume, accepted: set<nat>, now: int)
    ensures FlushedBut(v, v.entries.Keys, accepted, now) == v.disk
  {
    hide Cleanup;
    assert FlushedOf(v, accepted - v.entries.Keys, now).m == v.disk.m;
  }

  lemma FlushOne(v: V.Volume, todo: set<nat>, accepted: set<nat>, h: nat, now: int)
    requires h in todo && h in v.entries && v.entries[h].rec.key == h
    ensures FlushedBut(v, todo - {h}, accepted, now)
            == if v.entries[h].dirty && h in accepted then Stored(FlushedBut(v, todo, accepted, now),
                v.entries[h].rec, now)
               else FlushedBut(v, todo, accepted, now)
  {
    hide Cleanup;
    assert FlushedOf(v, accepted - (todo - {h}), now).m
        == if v.entries[h].dirty && h in accepted
           then FlushedOf(v, accepted - todo, now).m[h := Cleanup(v.entries[h].rec, now)]
           else FlushedOf(v, accepted - todo, now).m;
  }

  lemma FlushAll(v: V.Volume, accepted: set<nat>, now: int)
    ensures FlushedBut(v, {}, accepted, now) == FlushedOf(v, accepted, now)
  {
    assert accepted - {} == accepted;
  }

  class Volume {
    const storage: Store
    const pathCache: MRUCache<Bytes, nat>
    var openedEntries: map<nat, OpenEntry>
    var claims: Claims

    constructor (store: Store)
      requires Keyed(store.spec.m)
      ensures Valid() && View() == V.Volume(store.spec, map[], []) && storage == store && fresh(pathCache)
      ensures claims == UNCLAIMED
    {
      storage := store;
      pathCache := new MRUCache<Bytes, nat>(PATH_CACHE_SIZE);
      openedEntries := map[];
      claims := UNCLAIMED;
    }

    /** Records, stored or open, are kept under their own handles. */
    ghost predicate Valid()
      reads this, storage, pathCache, openedEntries.Values
    {
      && pathCache.capacity == PATH_CACHE_SIZE && |pathCache.items| <= PATH_CACHE_SIZE
      && (forall h <- openedEntries :: openedEntries[h].rec.key == h)
      && Keyed(storage.spec.m)
      && ValidClaims(claims)
    }

    ghost function View(): V.Volume
      reads this, storage, pathCache, openedEntries.Values
    {
      V.Volume(storage.spec, map h | h in openedEntries :: openedEntries[h].View(), pathCache.items)
    }

    /** The longest cached prefix of a path, by trying the path and then its ancestors. */
    method SearchCachedPathEntry(path: Bytes) returns (handle: Option<nat>, found: Bytes)
      requires Valid()
      modifies pathCache
      ensures Valid() && openedEntries == old(openedEntries)
      ensures var (hit, cache) := SearchCached(old(pathCache.items), Split32(path));
              && pathCache.items == cache
              && (handle, found) == match hit case Some(hf) => (Some(hf.0), PathString(hf.1)) case None => (None, [])
    {
      ghost var cache, cs := pathCache.items, Split32(path);
      hide Split32;
      hide Split;
      hide PathString;
      hide SearchCached;
      var it := new ReverseStringPathIterator(path);
      while it.valid
        invariant pathCache.items == cache && |cache| <= PATH_CACHE_SIZE
        invariant it.valid ==> SearchCached(cache, cs) == SearchCached(cache, it.chunks)
        invariant !it.valid ==> SearchCached(cache, cs) == (None, cache)
        decreases if it.valid then 1 + |it.chunks| else 0
      {
        var current := it.Current();
        SearchUnfolds(cache, it.chunks);
        handle := pathCache.Lookup(current);
        if handle.Some? {
          TouchLength(cache, current);
          return handle, current;
        }
        it.Next();
      }
      handle, found := None, [];
    }

    /** An entry already open is shared; otherwise its record is loaded. */
    method CreateEntryForHandle(handle: nat, now: int) returns (e: OpenEntry?)
      requires Valid()
      modifies this`openedEntries
      ensures Valid()
      ensures var (found, v) := OpenHandle(old(View()), handle, now);
              View() == v && found == if e == null then None else Some(handle)
      ensures e != null ==> openedEntries == old(openedEntries)[handle := e]
      ensures e != null ==> if handle in old(openedEntries) then e == old(openedEntries)[handle] else fresh(e)
      ensures e == null ==> openedEntries == old(openedEntries)
    {
      hide Keyed;
      hide Cleanup;
      if handle in openedEntries {
        return openedEntries[handle];
      }
      var status, rec := storage.Load(handle, now);
      if !status.Ok? {
        return null;
      }
      KeyedAt(storage.spec.m, handle, now);
      var entry := new OpenEntry(rec);
      openedEntries := openedEntries[handle := entry];
      e := entry;
    }

    /** The children of an entry: from its open record if it is open, else from the stored one. */
    method FetchChildren(handle: nat, now: int) returns (children: Option<map<Bytes, nat>>)
      requires Valid()
      ensures children == ChildrenOf(View(), handle)
    {
      if handle in openedEntries {
        return Some(openedEntries[handle].rec.children);
      }
      var status, rec := storage.Load(handle, now);
      if !status.Ok? {
        return None;
      }
      children := Some(rec.children);
    }

    /** The loop that follows the tokens down, caching each path it passes. */
    method WalkTokens(start: nat, tokens: seq<Bytes>, track: Bytes, now: int) returns (handle: Option<nat>)
      requires Valid()
      modifies pathCache
      ensures Valid() && openedEntries == old(openedEntries)
      ensures (handle, View()) == WalkDown(old(View()), start, tokens, track)
    {
      hide Inserted;
      hide Keyed;
      var i, at, trackPath := 0, start, track;
      assert tokens[0..] == tokens;
      while i < |tokens|
        invariant 0 <= i <= |tokens|
        invariant Valid()
        invariant WalkDown(old(View()), start, tokens, track) == WalkDown(View(), at, tokens[i..], trackPath)
      {
        ghost var before := View();
        hide ChildrenOf;
        var children := FetchChildren(at, now);
        if children.None? || tokens[i] !in children.value {
          return None;
        }
        at := children.value[tokens[i]];
        trackPath := trackPath + ([SEPARATOR] + tokens[i]);
        pathCache.Insert(trackPath, at);
        assert View() == before.(cache := pathCache.items);
        assert tokens[i..][1..] == tokens[i + 1..];
        i := i + 1;
      }
      handle := Some(at);
    }

    /** entry(): nothing, or the open entry that the path leads to. */
    method EntryAt(p: Bytes, now: int) returns (e: OpenEntry?)
      requires Valid()
      modifies pathCache, `openedEntries
      ensures Valid()
      ensures var (found, v) := FindEntry32(old(View()), p, now);
              && View() == v && (e != null <==> found.Some?)
              && (e != null ==> found.value in openedEntries && e == openedEntries[found.value])
      ensures Countable(p) ==> FindEntry32(old(View()), p, now) == FindEntry(old(View()), p, now)
      ensures forall h <- old(openedEntries) :: h in openedEntries && openedEntries[h] == old(openedEntries)[h]
    {
      ghost var start := View();
      if Countable(p) {
        FindEntry32IsFindEntry(start, p, now);
      }
      hide FindEntry;
      hide OpenHandle;
      hide FindHandle32;
      var found := FindByPath(p, now);
      if found.None? {
        return null;
      }
      e := CreateEntryForHandle(found.value, now);
    }

    /** The part of entry() that finds the handle: in the cache, or by a walk from what is cached. */
    method FindByPath(p: Bytes, now: int) returns (handle: Option<nat>)
      requires Valid()
      modifies pathCache
      ensures Valid() && openedEntries == old(openedEntries)
      ensures (handle, View()) == FindHandle32(old(View()), p)
    {
      hide WalkDown;
      hide Inserted;
      hide Split32;
      hide Simplify;
      hide PathString;
      hide SearchCached;
      ghost var start := View();
      var path := SimplifyPath(p);
      hide Simplify32;
      var hit, foundPath := SearchCachedPathEntry(path);
      assert View() == start.(cache := SearchCached(start.cache, Split32(path)).1);
      if hit.Some? && foundPath == path {
        return hit;
      }
      if hit.None? {
        handle := WalkFromRoot(path, now);
      } else {
        path := if |foundPath| <= |path| then path[|foundPath|..] else [];
        var tokens := SplitString(path);
        handle := WalkTokens(hit.value, tokens, foundPath, now);
      }
    }

    method WalkFromRoot(path: Bytes, now: int) returns (handle: Option<nat>)
      requires Valid()
      modifies pathCache
      ensures Valid() && openedEntries == old(openedEntries)
      ensures (handle, View())
              == WalkDown(
                   old(View()).(cache := Inserted(old(pathCache.items), [SEPARATOR], ROOT_HANDLE, PATH_CACHE_SIZE)),
                   ROOT_HANDLE, Split32(path), [])
    {
      hide Split32;
      hide WalkDown;
      hide Inserted;
      pathCache.Insert([SEPARATOR], ROOT_HANDLE);
      assert View() == old(View()).(cache := pathCache.items);
      var tokens := SplitString(path);
      handle := WalkTokens(ROOT_HANDLE, tokens, [], now);
    }

    /** The caller's entry must be the one in the table. */
    predicate Registered(e: OpenEntry)
      reads this, e
    {
      e.rec.key in openedEntries && openedEntries[e.rec.key] == e
    }

    /** link; `accepted` is the disk's answer to saving the child. */
    method CreateChild(e: OpenEntry, name: Bytes, accepted: bool, now: int) returns (status: Status)
      requires Valid()
      modifies e, storage
      ensures old(Registered(e)) ==>
                openedEntries == old(openedEntries) && Registered(e)
                && (status, View()) == Link(old(View()), old(e.rec.key), name, accepted, now)
      ensures !old(Registered(e)) ==> status == InvalidArgument && View() == old(View())
      ensures Valid()
    {
      ghost var start := View();
      if SEPARATOR in name || name == [] {
        return InvalidArgument;
      }
      if e.rec.key !in openedEntries || openedEntries[e.rec.key] != e {
        return InvalidArgument;
      }
      status := AddChild(e, name, accepted, now);
    }

    /** The part of link that follows the checks: a new key, the child's record, the parent's list. */
    method AddChild(e: OpenEntry, name: Bytes, accepted: bool, now: int) returns (status: Status)
      requires Valid() && Registered(e) && ValidName(name)
      modifies e, storage
      ensures openedEntries == old(openedEntries) && Registered(e)
      ensures (status, View()) == Link(old(View()), old(e.rec.key), name, accepted, now)
      ensures Valid()
    {
      hide WithoutHandle;
      hide Keyed;
      hide Stored;
      hide Cleanup;
      ghost var start := View();
      var children := e.rec.children;
      if name in children {
        return InvalidArgument;
      }
      var key := storage.NewKey();
      if exists n <- children :: children[n] == key {
        assert View() == start.(disk := storage.spec);
        return InvalidArgument;
      }
      status := StoreChild(e, name, key, accepted, now);
      ViewOfOne(start, e);
    }

    /** The parent lists the child, whose record is saved; a refused save takes it off the list again. */
    method StoreChild(e: OpenEntry, name: Bytes, key: nat, accepted: bool, now: int) returns (status: Status)
      requires Keyed(storage.spec.m)
      modifies e, storage
      ensures Keyed(storage.spec.m) && status == if accepted then Ok else IOError
      ensures var r := old(e.rec).(children := old(e.rec).children[name := key]);
              && storage.spec == (if accepted then Stored(old(storage.spec), NewRec(key, name).(parent := r.key), now)
                                  else old(storage.spec))
              && e.View() == if accepted then Entry(r, true)
                             else Entry(r.(children := WithoutHandle(r.children, key)), old(e.dirty))
    {
      hide Keyed;
      hide Stored;
      e.rec := e.rec.(children := e.rec.children[name := key]);
      var child := NewRec(key, name).(parent := e.rec.key);
      StoredKeyed(storage.spec, child, now);
      status := storage.Save(child, accepted, now);
      if !status.Ok? {
        e.rec := e.rec.(children := WithoutHandle(e.rec.children, key));
        return;
      }
      e.dirty := true;
    }

    /** Only one entry differs from an earlier view. */
    lemma ViewOfOne(start: V.Volume, e: OpenEntry)
      requires Registered(e) && start.cache == pathCache.items && start.entries.Keys == openedEntries.Keys
      requires forall h <- openedEntries :: h != e.rec.key ==> start.entries[h] == openedEntries[h].View()
      ensures View() == start.(disk := storage.spec, entries := start.entries[e.rec.key := e.View()])
    {
    }

    /** unlink: only a child that is closed and has no children of its own. */
    method RemoveChild(e: OpenEntry, name: Bytes, now: int) returns (status: Status)
      requires Valid()
      modifies e, storage
      ensures old(Registered(e)) ==>
                openedEntries == old(openedEntries) && Registered(e)
                && (status, View()) == Unlink(old(View()), old(e.rec.key), name)
      ensures !old(Registered(e)) ==> status == InvalidArgument && View() == old(View())
      ensures Valid()
    {
      hide Keyed;
      hide Stored;
      hide Dropped;
      hide WithoutHandle;
      ghost var start := View();
      if e.rec.key !in openedEntries || openedEntries[e.rec.key] != e {
        return InvalidArgument;
      }
      var children := e.rec.children;
      if name !in children {
        return InvalidArgument;
      }
      var cid := children[name];
      if cid in openedEntries {
        return InvalidOperation;
      }
      var found, child := storage.Load(cid, now);
      if !found.Ok? {
        return found;
      }
      if child.children != map[] {
        return InvalidArgument;
      }
      e.rec := e.rec.(children := WithoutHandle(children, cid));
      e.dirty := true;
      DroppedKeyed(storage.spec, cid);
      status := storage.Remove(cid);
      ViewOfOne(start, e);
    }

    /** The last holder lets go: the entry leaves the table and, when dirty, its record is saved. */
    method ReleaseEntry(e: OpenEntry, accepted: bool, now: int)
      requires Valid() && Registered(e)
      modifies `openedEntries, storage
      ensures Valid()
      ensures View() == ReleaseAnswered(old(View()), e.rec.key, accepted, now)
    {
      hide Keyed;
      hide Stored;
      hide Dropped;
      hide WithoutHandle;
      ghost var start := View();
      openedEntries := openedEntries - {e.rec.key};
      assert View() == start.(entries := start.entries - {e.rec.key});
      SyncRecord(e, accepted, now);
      assert View() == start.(entries := start.entries - {e.rec.key}, disk := storage.spec);
    }

    method SyncRecord(e: OpenEntry, accepted: bool, now: int)
      requires Keyed(storage.spec.m)
      modifies storage
      ensures Keyed(storage.spec.m)
      ensures storage.spec
              == if e.dirty && accepted then Stored(old(storage.spec), e.rec, now) else old(storage.spec)
    {
      hide Stored;
      hide Keyed;
      StoredKeyed(storage.spec, e.rec, now);
      if e.dirty {
        var _ := storage.Save(e.rec, accepted, now);
      }
    }

    /** Saves every dirty entry, in whatever order the table yields, and empties the table. */
    method FlushEntries(accepted: set<nat>, now: int)
      requires Valid()
      modifies `openedEntries, storage
      ensures Valid()
      ensures View() == V.Volume(FlushedOf(old(View()), accepted, now), map[], old(pathCache.items))
    {
      hide FlushedOf;
      hide FlushedBut;
      hide Keyed;
      hide Stored;
      hide ValidClaims;
      ghost var start := View();
      var todo := openedEntries.Keys;
      FlushNone(start, accepted, now);
      assert start.entries.Keys == todo;
      while todo != {}
        invariant todo <= openedEntries.Keys && openedEntries == old(openedEntries)
        invariant storage.spec == FlushedBut(start, todo, accepted, now)
        invariant Keyed(storage.spec.m)
        decreases |todo|
      {
        var handle :| handle in todo;
        var e := openedEntries[handle];
        FlushOne(start, todo, accepted, handle, now);
        assert start.entries[handle] == e.View();
        todo := todo - {handle};
        SyncRecord(e, handle in accepted, now);
      }
      FlushAll(start, accepted, now);
      openedEntries := map[];
      assert View().entries == map[];
    }

    /** deinitialize, up to closing the engine; refused while the volume is claimed. */
    method Deinitialize(accepted: set<nat>, now: int) returns (status: Status)
      requires Valid()
      modifies `openedEntries, storage, pathCache
      ensures Valid()
      ensures Claimed(claims) ==> status == InvalidOperation && View() == old(View())
      ensures !Claimed(claims) ==> status == Ok && View() == ReinitializeAnswered(old(View()), accepted, now)
    {
      if claims.count != 0 {
        return InvalidOperation;
      }
      FlushEntries(accepted, now);
      pathCache.Clear();
      status := Ok;
    }

    method Claim(token: nat) returns (status: Status)
      requires Valid()
      modifies `claims
      ensures Valid() && (status, claims) == ClaimTokens.Claim(old(claims), token)
    {
      if claims.token != NO_TOKEN && claims.token != token {
        return InvalidArgument;
      }
      if token == NO_TOKEN {
        return InvalidArgument;
      }
      claims := Claims(token, claims.count + 1);
      status := Ok;
    }

    method Release(token: nat) returns (status: Status)
      requires Valid()
      modifies `claims
      ensures Valid() && (status, claims) == ClaimTokens.Release(old(claims), token)
    {
      if claims.token == NO_TOKEN {
        return InvalidOperation;
      }
      if claims.token != token {
        return InvalidArgument;
      }
      claims := claims.(count := claims.count - 1);
      if claims.count == 0 {
        claims := claims.(token := NO_TOKEN);
      }
      status := Ok;
    }
  }

  lemma TouchLength(cache: Cache<Bytes, nat>, k: Bytes)
    ensures |Touch(cache, k)| == |cache|
  {
  }

  /** The path itself is cached: its handle is the answer, without a walk. */
  lemma FindCached(v: V.Volume, p: Bytes)
    requires var (hit, _) := SearchCached(v.cache, ComponentsOf(p));
             hit.Some? && PathString(hit.value.1) == Simplify(p)
    ensures var (hit, cache) := SearchCached(v.cache, ComponentsOf(p));
            FindHandle(v, ComponentsOf(p)) == (Some(hit.value.0), v.(cache := cache))
  {
    var cs := ComponentsOf(p);
    var hit := SearchCached(v.cache, cs).0;
    SearchIsPrefix(v.cache, cs);
    ComponentsAreNames(p);
    PathStringInjective(hit.value.1, cs);
    hide SearchCached;
  }

  /** Otherwise the walk starts at the cached prefix, or at the root when nothing is cached. */
  lemma FindByWalking(v: V.Volume, p: Bytes)
    ensures var cs := ComponentsOf(p);
            var (hit, cache) := SearchCached(v.cache, cs);
            match hit
            case Some(hf) =>
              && |PathString(hf.1)| <= |Simplify(p)| && |hf.1| <= |cs|
              && Split(Simplify(p)[|PathString(hf.1)|..]) == cs[|hf.1|..]
              && FindHandle(v, cs) == WalkDown(v.(cache := cache), hf.0, cs[|hf.1|..], PathString(hf.1))
            case None =>
              && Split(Simplify(p)) == cs
              && FindHandle(v, cs)
                 == WalkDown(v.(cache := Inserted(cache, [SEPARATOR], ROOT_HANDLE, PATH_CACHE_SIZE)),
                     ROOT_HANDLE, cs, [])
  {
    var cs := ComponentsOf(p);
    SimplifiedSplits(p);
    SearchIsPrefix(v.cache, cs);
    hide WalkDown;
    hide Inserted;
    var hit := SearchCached(v.cache, cs).0;
    if hit.Some? {
      var done := hit.value.1;
      assert cs == done + cs[|done|..];
      SuffixSplits(done, cs[|done|..]);
    }
  }
}
