// Mounting and unmounting: mount points and the claims of volumes kept in step, what unmount
// erases, and the storage object itself (lib/vfs/Storage_p.hpp).

module VfsStorages {
  import opened Wrappers
  import opened Serialization
  import opened Paths
  import opened ClaimTokens
  import opened Mounts

  predicate IsAt(m: Mount, volume: nat, entryPath: Bytes, mountPath: Bytes) {
    m.volume == volume && m.entryPath == entryPath && m.mountPath == mountPath
  }

  predicate IsThere(ps: seq<Mount>, volume: nat, entryPath: Bytes, mountPath: Bytes) {
    exists i :: 0 <= i < |ps| && IsAt(ps[i], volume, entryPath, mountPath)
  }

  /** `opens` is the volume's answer to opening the entry path. */
  function MountPoint(s: Vfs, m: Mount, opens: bool): (Status, Vfs)
    requires ValidClaims(ClaimOf(s, m.volume))
  {
    if m.volume == 0 then (InvalidArgument, s)
    else
      var (granted, c) := Claim(ClaimOf(s, m.volume), ME);
      if !granted.Ok? then (InvalidOperation, s)
      else if !opens || IsThere(s.points, m.volume, m.entryPath, m.mountPath) then
        (InvalidArgument, s.(claims := s.claims[m.volume := Release(c, ME).1]))
      else
        (Ok, Vfs(Mounts.Inserted(s.points, m), s.claims[m.volume := c]))
  }

  function MountAt(s: Vfs, volume: nat, entryPath: Bytes, mountPath: Bytes, priority: nat, opens: bool): (Status, Vfs)
    requires ValidClaims(ClaimOf(s, volume))
  {
    MountPoint(s, Mount(Simplify(mountPath), Simplify(entryPath), volume, priority), opens)
  }

  /** The first position in a range that holds the volume and entry path, or the end of the range. */
  function FindIn(ps: seq<Mount>, lo: nat, hi: nat, volume: nat, entryPath: Bytes): (i: nat)
    requires lo <= hi <= |ps|
    ensures lo <= i <= hi
    ensures forall j :: lo <= j < i ==> !(ps[j].volume == volume && ps[j].entryPath == entryPath)
    ensures i < hi ==> ps[i].volume == volume && ps[i].entryPath == entryPath
    decreases hi - lo
  {
    if lo == hi || (ps[lo].volume == volume && ps[lo].entryPath == entryPath) then lo
    else FindIn(ps, lo + 1, hi, volume, entryPath)
  }

  function Position(ps: seq<Mount>, volume: nat, entryPath: Bytes, mountPath: Bytes): (i: nat)
    ensures i <= |ps|
  {
    BoundsOrdered(ps, mountPath);
    FindIn(ps, LowerBound(ps, mountPath), UpperBound(ps, mountPath), volume, entryPath)
  }

  function Without(ps: seq<Mount>, i: nat): seq<Mount>
    requires i < |ps|
  {
    ps[..i] + ps[i + 1..]
  }

  /** Not finding the mount is recognised only at the end of the whole index, not of the range. */
  function UnmountAt(s: Vfs, volume: nat, entryPath: Bytes, mountPath: Bytes): (Status, Vfs)
    requires ValidClaims(ClaimOf(s, volume))
  {
    if volume == 0 then (InvalidArgument, s)
    else
      var i := Position(s.points, volume, entryPath, mountPath);
      if i == |s.points| then (InvalidArgument, s)
      else
        var (released, c) := Release(ClaimOf(s, volume), ME);
        if !released.Ok? then (Fatal, s)
        else (Ok, Vfs(Without(s.points, i), s.claims[volume := c]))
  }

  // ---------------------------------------------------------------------------
  // What unmount erases

  lemma RangeIsPath(ps: seq<Mount>, path: Bytes, i: nat)
    requires Sorted(ps) && i < |ps|
    ensures LowerBound(ps, path) <= i < UpperBound(ps, path) <==> ps[i].mountPath == path
  {
    UpperIsGreater(ps, path);
    LowerIsLess(ps, path);
    LessIsTotal(path, ps[i].mountPath);
  }

  lemma {:induction false} LowerIsLess(ps: seq<Mount>, path: Bytes)
    requires Sorted(ps)
    ensures forall i :: 0 <= i < |ps| ==> (i < LowerBound(ps, path) <==> Less(ps[i].mountPath, path))
  {
    if ps != [] {
      SortedTail(ps);
      LowerIsLess(ps[1..], path);
      forall i | 0 < i < |ps| ensures i < LowerBound(ps, path) <==> Less(ps[i].mountPath, path) {
        assert ps[i] == ps[1..][i - 1];
        if Less(ps[i].mountPath, path) {
          LessIsTotal(ps[0].mountPath, ps[i].mountPath);
          if ps[0].mountPath != ps[i].mountPath {
            LessTransitive(ps[0].mountPath, ps[i].mountPath, path);
          }
        }
      }
    }
  }

  predicate SomeGreater(ps: seq<Mount>, path: Bytes) {
    exists i :: 0 <= i < |ps| && Less(path, ps[i].mountPath)
  }

  /**
   * Where unmount looks. A mounted triple is found. Of one that is not mounted, the search ends
   * on the first mount with a greater path, if there is one.
   */
  lemma PositionFinds(ps: seq<Mount>, volume: nat, entryPath: Bytes, mountPath: Bytes)
    requires Sorted(ps)
    ensures var i := Position(ps, volume, entryPath, mountPath);
            if IsThere(ps, volume, entryPath, mountPath) then i < |ps| && IsAt(ps[i], volume, entryPath, mountPath)
            else i == UpperBound(ps, mountPath) && (i < |ps| <==> SomeGreater(ps, mountPath))
                 && (i < |ps| ==> Less(mountPath, ps[i].mountPath))
  {
    var i := Position(ps, volume, entryPath, mountPath);
    BoundsOrdered(ps, mountPath);
    UpperIsGreater(ps, mountPath);
    forall j | 0 <= j < |ps|
      ensures LowerBound(ps, mountPath) <= j < UpperBound(ps, mountPath) <==> ps[j].mountPath == mountPath
    {
      RangeIsPath(ps, mountPath, j);
    }
    hide Less;
    hide Sorted;
    if i < UpperBound(ps, mountPath) {
      assert IsAt(ps[i], volume, entryPath, mountPath);
    }
  }

  // ---------------------------------------------------------------------------
  // Mounts and claims in step

  function Count(ps: seq<Mount>, volume: nat): nat {
    if ps == [] then 0 else (if ps[0].volume == volume then 1 else 0) + Count(ps[1..], volume)
  }

  ghost predicate Canonical(ps: seq<Mount>) {
    forall i :: 0 <= i < |ps| ==>
      ps[i].volume != 0 && Simplify(ps[i].mountPath) == ps[i].mountPath && Simplify(ps[i].entryPath) == ps[i].entryPath
  }

  ghost predicate Unique(ps: seq<Mount>) {
    forall i, j :: 0 <= i < j < |ps| ==> !IsAt(ps[j], ps[i].volume, ps[i].entryPath, ps[i].mountPath)
  }

  ghost predicate TableOk(ps: seq<Mount>) {
    Sorted(ps) && Canonical(ps) && Unique(ps)
  }

  /** Of each volume this storage holds exactly as many claims as it has mounts. */
  ghost predicate ClaimsMatch(s: Vfs) {
    forall v: nat :: ValidClaims(ClaimOf(s, v)) && Owned(ClaimOf(s, v), ME) == Count(s.points, v)
  }

  ghost predicate InStep(s: Vfs) {
    TableOk(s.points) && ClaimsMatch(s)
  }

  lemma {:induction false} CountIn(ps: seq<Mount>, i: nat, volume: nat)
    requires i < |ps|
    ensures Count(Without(ps, i), volume) == Count(ps, volume) - if ps[i].volume == volume then 1 else 0
  {
    if i == 0 {
      assert Without(ps, 0) == ps[1..];
    } else {
      CountIn(ps[1..], i - 1, volume);
      assert Without(ps, i) == [ps[0]] + Without(ps[1..], i - 1);
    }
  }

  lemma {:induction false} CountInserted(ps: seq<Mount>, m: Mount, volume: nat)
    ensures Count(Mounts.Inserted(ps, m), volume) == Count(ps, volume) + if m.volume == volume then 1 else 0
  {
    if ps == [] {
    } else if Less(m.mountPath, ps[0].mountPath) {
      assert ([m] + ps)[1..] == ps;
    } else {
      CountInserted(ps[1..], m, volume);
      assert ([ps[0]] + Mounts.Inserted(ps[1..], m))[1..] == Mounts.Inserted(ps[1..], m);
    }
  }

  lemma {:induction false} InsertedMembers(ps: seq<Mount>, m: Mount)
    ensures forall i :: 0 <= i < |Mounts.Inserted(ps, m)| ==>
              Mounts.Inserted(ps, m)[i] == m || Mounts.Inserted(ps, m)[i] in ps
  {
    if ps != [] && !Less(m.mountPath, ps[0].mountPath) {
      InsertedMembers(ps[1..], m);
    }
  }

  lemma {:induction false} InsertedUnique(ps: seq<Mount>, m: Mount)
    requires Unique(ps) && forall i :: 0 <= i < |ps| ==> !IsAt(ps[i], m.volume, m.entryPath, m.mountPath)
    ensures Unique(Mounts.Inserted(ps, m))
  {
    if ps != [] {
      assert forall i :: 0 <= i < |ps[1..]| ==> ps[1..][i] == ps[i + 1];
      if !Less(m.mountPath, ps[0].mountPath) {
        InsertedUnique(ps[1..], m);
        InsertedMembers(ps[1..], m);
      }
    }
  }

  lemma InsertedTableOk(ps: seq<Mount>, m: Mount)
    requires TableOk(ps) && !IsThere(ps, m.volume, m.entryPath, m.mountPath)
    requires m.volume != 0 && Simplify(m.mountPath) == m.mountPath && Simplify(m.entryPath) == m.entryPath
    ensures TableOk(Mounts.Inserted(ps, m))
  {
    InsertedSorted(ps, m);
    InsertedUnique(ps, m);
    InsertedMembers(ps, m);
    hide Sorted;
    hide Unique;
    hide Simplify;
  }

  lemma WithoutTableOk(ps: seq<Mount>, i: nat)
    requires TableOk(ps) && i < |ps|
    ensures TableOk(Without(ps, i))
  {
  }

  /** A claim given back is as if it had not been taken. */
  lemma ClaimThenRelease(c: Claims)
    requires ValidClaims(c) && Claim(c, ME).0.Ok?
    ensures Claim(c, ME).1 == Claims(ME, Owned(c, ME) + 1)
    ensures Release(Claims(ME, Owned(c, ME) + 1), ME) == (Ok, c)
  {
  }

  lemma ReleaseOwned(c: Claims)
    requires ValidClaims(c)
    ensures Release(c, ME).0.Ok? <==> Owned(c, ME) > 0
    ensures Release(c, ME).0.Ok? ==> Owned(Release(c, ME).1, ME) == Owned(c, ME) - 1 && ValidClaims(Release(c, ME).1)
  {
  }

  /** Mounting keeps mounts and claims in step; a mount that fails leaves both as they were. */
  lemma MountKeepsStep(s: Vfs, volume: nat, entryPath: Bytes, mountPath: Bytes, priority: nat, opens: bool)
    requires InStep(s)
    ensures ValidClaims(ClaimOf(s, volume))
    ensures var (status, s1) := MountAt(s, volume, entryPath, mountPath, priority, opens);
            && InStep(s1)
            && (!status.Ok? ==> s1.points == s.points && forall v: nat :: ClaimOf(s1, v) == ClaimOf(s, v))
            && (status.Ok? ==> forall path :: Matching(s1.points, path) == Matching(s.points, path)
                                 + if path == Simplify(mountPath)
                                   then [Mount(path, Simplify(entryPath), volume, priority)] else [])
  {
    ClaimAt(s, volume);
    hide InStep;
    var m := Mount(Simplify(mountPath), Simplify(entryPath), volume, priority);
    if volume != 0 && Claim(ClaimOf(s, volume), ME).0.Ok? {
      ClaimThenRelease(ClaimOf(s, volume));
      hide Claim;
      hide Release;
      hide Simplify;
      hide ClaimOf;
      hide ValidClaims;
      hide IsThere;
      if !opens || IsThere(s.points, volume, m.entryPath, m.mountPath) {
        PutBack(s, volume);
      } else {
        SimplifyIdempotent(mountPath);
        SimplifyIdempotent(entryPath);
        MountedInStep(s, m);
      }
    }
  }

  /**
   * What a mount answers. It succeeds exactly when the volume is there and nobody else has claimed
   * it, the entry opens, and the volume is not yet mounted at that path by that entry. Other
   * mounts at the path do not matter, nor do other mounts of the volume.
   */
  lemma MountAnswers(s: Vfs, volume: nat, entryPath: Bytes, mountPath: Bytes, priority: nat, opens: bool)
    requires InStep(s)
    ensures ValidClaims(ClaimOf(s, volume))
    ensures var claimed := exists t :: t != ME && Owned(ClaimOf(s, volume), t) > 0;
            var there := exists m <- s.points ::
                           m.volume == volume && m.entryPath == Simplify(entryPath)
                               && m.mountPath == Simplify(mountPath);
            MountAt(s, volume, entryPath, mountPath, priority, opens).0
            == if volume == 0 then InvalidArgument
               else if claimed then InvalidOperation
               else if !opens || there then InvalidArgument
               else Ok
  {
    ClaimAt(s, volume);
    GrantedExactly(ClaimOf(s, volume), ME);
    NotThere(s.points, volume, Simplify(entryPath), Simplify(mountPath));
    hide InStep;
    hide Claim;
    hide Release;
    hide Simplify;
    hide ClaimOf;
    hide ValidClaims;
    hide Owned;
    hide IsThere;
    hide Mounts.Inserted;
  }

  lemma NotThere(ps: seq<Mount>, volume: nat, entryPath: Bytes, mountPath: Bytes)
    ensures !IsThere(ps, volume, entryPath, mountPath)
            <==> forall m <- ps :: !(m.volume == volume && m.entryPath == entryPath && m.mountPath == mountPath)
  {
    if i :| 0 <= i < |ps| && IsAt(ps[i], volume, entryPath, mountPath) {
      assert ps[i] in ps;
    }
  }

  ghost predicate Sound(s: Vfs) {
    forall v: nat :: ValidClaims(ClaimOf(s, v))
  }

  lemma UnmountUnfolds(s: Vfs, volume: nat, entryPath: Bytes, mountPath: Bytes)
    requires ValidClaims(ClaimOf(s, volume))
    ensures var i, (released, c) := Position(s.points, volume, entryPath, mountPath), Release(ClaimOf(s, volume), ME);
            UnmountAt(s, volume, entryPath, mountPath)
            == if volume == 0 || i == |s.points| then (InvalidArgument, s)
               else if !released.Ok? then (Fatal, s)
               else (Ok, Vfs(s.points[..i] + s.points[i + 1..], s.claims[volume := c]))
  {
    hide Position;
    hide Release;
  }

  lemma ClaimSound(s: Vfs, volume: nat)
    requires Sound(s)
    ensures ValidClaims(ClaimOf(s, volume)) && ValidClaims(Claim(ClaimOf(s, volume), ME).1)
  {
    StepValid(ClaimOf(s, volume), ClaimOp(ME));
  }

  /** A mount by paths that the 32-bit split can hold. */
  lemma ShortMount(s: Vfs, volume: nat, entryPath: Bytes, mountPath: Bytes, priority: nat, opens: bool)
    requires Sound(s) && |mountPath| < TWO32 && |entryPath| < TWO32
    ensures ValidClaims(ClaimOf(s, volume))
    ensures MountPoint(s, Mount(Simplify32(mountPath), Simplify32(entryPath), volume, priority), opens)
            == MountAt(s, volume, entryPath, mountPath, priority, opens)
    ensures InStep(s) ==> InStep(MountAt(s, volume, entryPath, mountPath, priority, opens).1)
  {
    if InStep(s) {
      MountStaysInStep(s, volume, entryPath, mountPath, priority, opens);
    }
    SplitRightExactly(|mountPath|);
    SplitRightExactly(|entryPath|);
    hide MountPoint;
    hide InStep;
    hide Simplify;
    hide Simplify32;
  }

  /** The claims of volumes stay sound, in step with the mounts or not. */
  lemma MountStaysSound(s: Vfs, m: Mount, opens: bool)
    requires Sound(s)
    ensures Sound(MountPoint(s, m, opens).1) && ValidClaims(Claim(ClaimOf(s, m.volume), ME).1)
  {
    hide IsThere;
    hide Mounts.Inserted;
    var c := ClaimOf(s, m.volume);
    assert ValidClaims(c);
    forall v: nat ensures ValidClaims(ClaimOf(MountPoint(s, m, opens).1, v)) {
      assert ValidClaims(ClaimOf(s, v));
    }
  }

  lemma UnmountStaysSound(s: Vfs, volume: nat, entryPath: Bytes, mountPath: Bytes)
    requires Sound(s)
    ensures Sound(UnmountAt(s, volume, entryPath, mountPath).1)
  {
    hide Position;
    var c := ClaimOf(s, volume);
    assert ValidClaims(c);
    forall v: nat ensures ValidClaims(ClaimOf(UnmountAt(s, volume, entryPath, mountPath).1, v)) {
      assert ValidClaims(ClaimOf(s, v));
    }
  }

  lemma MountStaysInStep(s: Vfs, volume: nat, entryPath: Bytes, mountPath: Bytes, priority: nat, opens: bool)
    requires InStep(s)
    ensures ValidClaims(ClaimOf(s, volume)) && ValidClaims(Claim(ClaimOf(s, volume), ME).1)
    ensures InStep(MountAt(s, volume, entryPath, mountPath, priority, opens).1)
  {
    MountKeepsStep(s, volume, entryPath, mountPath, priority, opens);
    StepValid(ClaimOf(s, volume), ClaimOp(ME));
    hide InStep;
    hide MountAt;
  }

  lemma ClaimAt(s: Vfs, v: nat)
    requires InStep(s)
    ensures TableOk(s.points) && ValidClaims(ClaimOf(s, v)) && Owned(ClaimOf(s, v), ME) == Count(s.points, v)
  {
  }

  lemma PutBack(s: Vfs, volume: nat)
    requires InStep(s)
    ensures var s1 := s.(claims := s.claims[volume := ClaimOf(s, volume)]);
            InStep(s1) && forall v: nat :: ClaimOf(s1, v) == ClaimOf(s, v)
  {
    var s1 := s.(claims := s.claims[volume := ClaimOf(s, volume)]);
    assert forall v: nat :: ClaimOf(s1, v) == ClaimOf(s, v);
    hide TableOk;
    hide ClaimOf;
  }

  lemma MountedInStep(s: Vfs, m: Mount)
    requires InStep(s) && !IsThere(s.points, m.volume, m.entryPath, m.mountPath)
    requires m.volume != 0 && Simplify(m.mountPath) == m.mountPath && Simplify(m.entryPath) == m.entryPath
    ensures var s1 := Vfs(Mounts.Inserted(s.points, m),
              s.claims[m.volume := Claims(ME, Owned(ClaimOf(s, m.volume), ME) + 1)]);
            && InStep(s1)
            && forall path :: Matching(s1.points, path)
                           == Matching(s.points, path) + if path == m.mountPath then [m] else []
  {
    hide *;
    var s1 := Vfs(Mounts.Inserted(s.points, m), s.claims[m.volume := Claims(ME, Owned(ClaimOf(s, m.volume), ME) + 1)]);
    ClaimAt(s, m.volume);
    InsertedTableOk(s.points, m);
    InsertedSorted(s.points, m) by { TableIsSorted(s.points); }
    MountedClaims(s, m);
    MakeInStep(s1);
  }

  lemma TableIsSorted(ps: seq<Mount>)
    requires TableOk(ps)
    ensures Sorted(ps)
  {
    hide Sorted;
  }

  lemma MakeInStep(s: Vfs)
    requires TableOk(s.points) && ClaimsMatch(s)
    ensures InStep(s)
  {
    hide TableOk;
    hide ClaimsMatch;
  }

  /** One mount more and one claim more, of the same volume. */
  lemma MountedClaims(s: Vfs, m: Mount)
    requires InStep(s)
    ensures ClaimsMatch(Vfs(Mounts.Inserted(s.points, m),
              s.claims[m.volume := Claims(ME, Owned(ClaimOf(s, m.volume), ME) + 1)]))
  {
    hide InStep;
    hide Mounts.Inserted;
    var s1 := Vfs(Mounts.Inserted(s.points, m), s.claims[m.volume := Claims(ME, Owned(ClaimOf(s, m.volume), ME) + 1)]);
    forall v: nat ensures ValidClaims(ClaimOf(s1, v)) && Owned(ClaimOf(s1, v), ME) == Count(s1.points, v) {
      CountInserted(s.points, m, v);
      ClaimAt(s, v);
    }
  }

  /** Unmounting a mounted triple: its one mount goes, with one claim; the rest stay. */
  lemma UnmountMounted(s: Vfs, volume: nat, entryPath: Bytes, mountPath: Bytes)
    requires InStep(s) && IsThere(s.points, volume, entryPath, mountPath)
    ensures ValidClaims(ClaimOf(s, volume))
    ensures var (status, s1) := UnmountAt(s, volume, entryPath, mountPath);
            && status == Ok && InStep(s1) && !IsThere(s1.points, volume, entryPath, mountPath)
            && multiset(s1.points) < multiset(s.points) && |s1.points| == |s.points| - 1
  {
    PositionFinds(s.points, volume, entryPath, mountPath);
    var i := Position(s.points, volume, entryPath, mountPath);
    hide TableOk;
    hide ClaimsMatch;
    EraseKeepsStep(s, i, volume);
    WithoutContents(s.points, i);
    ErasedIsGone(s.points, i);
  }

  lemma WithoutContents(ps: seq<Mount>, i: nat)
    requires i < |ps|
    ensures multiset(Without(ps, i)) == multiset(ps) - multiset{ps[i]} && ps[i] in multiset(ps)
  {
    assert ps == ps[..i] + [ps[i]] + ps[i + 1..];
  }

  lemma ErasedIsGone(ps: seq<Mount>, i: nat)
    requires TableOk(ps) && i < |ps|
    ensures !IsThere(Without(ps, i), ps[i].volume, ps[i].entryPath, ps[i].mountPath)
  {
  }

  lemma {:induction false} CountPositive(ps: seq<Mount>, i: nat)
    requires i < |ps|
    ensures Count(ps, ps[i].volume) > 0
  {
    if i > 0 {
      CountPositive(ps[1..], i - 1);
    }
  }

  /** Erasing a mount and giving back a claim of a volume: in step exactly when it is that volume's mount. */
  lemma EraseInStep(s: Vfs, i: nat, volume: nat)
    requires InStep(s) && i < |s.points| && ValidClaims(ClaimOf(s, volume)) && Release(ClaimOf(s, volume), ME).0.Ok?
    ensures var s1 := Vfs(Without(s.points, i), s.claims[volume := Release(ClaimOf(s, volume), ME).1]);
            TableOk(s1.points) && (ClaimsMatch(s1) <==> s.points[i].volume == volume)
  {
    var s1 := Vfs(Without(s.points, i), s.claims[volume := Release(ClaimOf(s, volume), ME).1]);
    WithoutTableOk(s.points, i);
    ReleaseOwned(ClaimOf(s, volume));
    CountIn(s.points, i, volume);
    assert Owned(ClaimOf(s, volume), ME) == Count(s.points, volume);
    hide TableOk;
    hide Release;
    hide Owned;
    hide ValidClaims;
    if s.points[i].volume == volume {
      forall v: nat ensures ValidClaims(ClaimOf(s1, v)) && Owned(ClaimOf(s1, v), ME) == Count(s1.points, v) {
        CountIn(s.points, i, v);
        assert ValidClaims(ClaimOf(s, v)) && Owned(ClaimOf(s, v), ME) == Count(s.points, v);
      }
    } else {
      assert Owned(ClaimOf(s1, volume), ME) != Count(s1.points, volume);
    }
  }

  lemma EraseKeepsStep(s: Vfs, i: nat, volume: nat)
    requires InStep(s) && i < |s.points| && s.points[i].volume == volume
    ensures ValidClaims(ClaimOf(s, volume)) && Release(ClaimOf(s, volume), ME).0.Ok?
    ensures InStep(Vfs(Without(s.points, i), s.claims[volume := Release(ClaimOf(s, volume), ME).1]))
    ensures volume != 0
  {
    assert ValidClaims(ClaimOf(s, volume)) && Owned(ClaimOf(s, volume), ME) == Count(s.points, volume);
    ReleaseOwned(ClaimOf(s, volume));
    CountPositive(s.points, i);
    EraseInStep(s, i, volume);
    hide ClaimsMatch;
    hide Sorted;
    hide Unique;
    hide Simplify;
  }

  /**
   * Unmounting a triple that is not mounted. It is refused, and changes nothing, unless some
   * mount has a greater path and the volume is mounted elsewhere: then another path's mount goes.
   */
  lemma UnmountNotMounted(s: Vfs, volume: nat, entryPath: Bytes, mountPath: Bytes)
    requires InStep(s) && !IsThere(s.points, volume, entryPath, mountPath)
    ensures ValidClaims(ClaimOf(s, volume))
    ensures var (status, s1) := UnmountAt(s, volume, entryPath, mountPath);
            if volume != 0 && SomeGreater(s.points, mountPath) && Count(s.points, volume) > 0
            then exists i :: 0 <= i < |s.points| && s.points[i].mountPath != mountPath
                             && status == Ok && s1.points == Without(s.points, i)
            else !status.Ok? && s1 == s
  {
    assert ValidClaims(ClaimOf(s, volume)) && Owned(ClaimOf(s, volume), ME) == Count(s.points, volume);
    PositionFinds(s.points, volume, entryPath, mountPath);
    ReleaseOwned(ClaimOf(s, volume));
    var i := Position(s.points, volume, entryPath, mountPath);
    if i < |s.points| {
      LessIsTotal(mountPath, s.points[i].mountPath);
    }
    hide TableOk;
    hide ClaimsMatch;
    hide Position;
    hide SomeGreater;
    hide Release;
    hide Less;
  }

  /**
   * Exactly when an unmount keeps mounts and claims in step: the triple is mounted, or no mount
   * has a greater path, or the volume has no mount, or the mount that goes instead is its own.
   */
  lemma UnmountKeepsStep(s: Vfs, volume: nat, entryPath: Bytes, mountPath: Bytes)
    requires InStep(s)
    ensures ValidClaims(ClaimOf(s, volume))
    ensures InStep(UnmountAt(s, volume, entryPath, mountPath).1)
            <==> Rightful(s.points, volume, entryPath, mountPath)
  {
    assert ValidClaims(ClaimOf(s, volume)) && Owned(ClaimOf(s, volume), ME) == Count(s.points, volume);
    PositionFinds(s.points, volume, entryPath, mountPath);
    ReleaseOwned(ClaimOf(s, volume));
    var i := Position(s.points, volume, entryPath, mountPath);
    if i < |s.points| && Release(ClaimOf(s, volume), ME).0.Ok? {
      EraseInStep(s, i, volume);
    }
    if IsThere(s.points, volume, entryPath, mountPath) {
      CountPositive(s.points, i);
    }
    NullNotMounted(s);
    hide TableOk;
    hide ClaimsMatch;
    hide Position;
    hide Release;
    hide Less;
  }

  lemma {:induction false} NoneCounted(ps: seq<Mount>, volume: nat)
    requires forall i :: 0 <= i < |ps| ==> ps[i].volume != volume
    ensures Count(ps, volume) == 0
  {
    if ps != [] {
      assert forall i :: 0 <= i < |ps[1..]| ==> ps[1..][i] == ps[i + 1];
      NoneCounted(ps[1..], volume);
    }
  }

  lemma NullNotMounted(s: Vfs)
    requires TableOk(s.points)
    ensures Count(s.points, 0) == 0
  {
    NoneCounted(s.points, 0);
  }

  predicate Rightful(ps: seq<Mount>, volume: nat, entryPath: Bytes, mountPath: Bytes) {
    || IsThere(ps, volume, entryPath, mountPath)
    || !SomeGreater(ps, mountPath)
    || Count(ps, volume) == 0
    || (UpperBound(ps, mountPath) < |ps| && ps[UpperBound(ps, mountPath)].volume == volume)
  }

  // ---------------------------------------------------------------------------
  // Runs

  datatype VfsOp =
    | MountOp(volume: nat, entryPath: Bytes, mountPath: Bytes, priority: nat, opens: bool)
    | UnmountOp(volume: nat, entryPath: Bytes, mountPath: Bytes)
    | OtherOp(volume: nat, claim: ClaimOp)

  function VfsStep(s: Vfs, op: VfsOp): Vfs
    requires ValidClaims(ClaimOf(s, op.volume))
  {
    match op
    case MountOp(v, e, m, p, opens) => MountAt(s, v, e, m, p, opens).1
    case UnmountOp(v, e, m) => UnmountAt(s, v, e, m).1
    case OtherOp(v, claim) => s.(claims := s.claims[v := ClaimStep(ClaimOf(s, v), claim).1])
  }

  /** Unmounts are rightful; other storages act under tokens of their own. */
  predicate Orderly(s: Vfs, op: VfsOp) {
    match op
    case MountOp(_, _, _, _, _) => true
    case UnmountOp(v, e, m) => Rightful(s.points, v, e, m)
    case OtherOp(_, claim) => claim.token != ME
  }

  ghost predicate VfsRuns(s: Vfs, ops: seq<VfsOp>)
    decreases |ops|
  {
    ops == [] || (ValidClaims(ClaimOf(s, ops[0].volume)) && Orderly(s, ops[0]) && VfsRuns(VfsStep(s, ops[0]), ops[1..]))
  }

  ghost function VfsRun(s: Vfs, ops: seq<VfsOp>): Vfs
    requires VfsRuns(s, ops)
    decreases |ops|
  {
    if ops == [] then s else VfsRun(VfsStep(s, ops[0]), ops[1..])
  }

  lemma OtherKeepsStep(s: Vfs, volume: nat, claim: ClaimOp)
    requires InStep(s) && claim.token != ME
    ensures ValidClaims(ClaimOf(s, volume)) && InStep(VfsStep(s, OtherOp(volume, claim)))
  {
    assert ValidClaims(ClaimOf(s, volume));
    var s1 := VfsStep(s, OtherOp(volume, claim));
    OtherOwned(ClaimOf(s, volume), claim);
    hide TableOk;
    hide ClaimStep;
    hide ValidClaims;
    forall v: nat ensures ValidClaims(ClaimOf(s1, v)) && Owned(ClaimOf(s1, v), ME) == Count(s1.points, v) {
      assert ValidClaims(ClaimOf(s, v)) && Owned(ClaimOf(s, v), ME) == Count(s.points, v);
    }
  }

  lemma OtherOwned(c: Claims, op: ClaimOp)
    requires ValidClaims(c) && op.token != ME
    ensures ValidClaims(ClaimStep(c, op).1) && Owned(ClaimStep(c, op).1, ME) == Owned(c, ME)
  {
  }

  /** Over every orderly run, of each volume this storage holds as many claims as it has mounts. */
  lemma {:induction false} RunKeepsStep(s: Vfs, ops: seq<VfsOp>)
    requires InStep(s) && VfsRuns(s, ops)
    ensures InStep(VfsRun(s, ops))
    decreases |ops|
  {
    hide InStep;
    if ops != [] {
      match ops[0] {
        case MountOp(v, e, m, p, opens) => MountKeepsStep(s, v, e, m, p, opens);
        case UnmountOp(v, e, m) => UnmountKeepsStep(s, v, e, m);
        case OtherOp(v, claim) => OtherKeepsStep(s, v, claim);
      }
      RunKeepsStep(VfsStep(s, ops[0]), ops[1..]);
    }
  }

  /** A storage that has mounted nothing. */
  lemma NothingMounted(claims: map<nat, Claims>)
    requires forall v <- claims :: ValidClaims(claims[v]) && claims[v].token != ME
    ensures InStep(Vfs([], claims))
  {
  }

  // ---------------------------------------------------------------------------
  // The storage object

  /** The volume and the path for each mount in turn. */
  function Asked(ms: seq<Mount>, vpath: Bytes, mountPath: Bytes): (asked: seq<(nat, Bytes)>)
    ensures |asked| == |ms|
  {
    seq(|ms|, i requires 0 <= i < |ms| => (ms[i].volume, SubPath(ms[i], vpath, mountPath)))
  }

  /** Every mount is asked once, those of higher priority first. */
  ghost predicate IsPlan(plan: seq<(nat, Bytes)>, ms: seq<Mount>, vpath: Bytes, mountPath: Bytes) {
    exists order :: PriorityOrder(order, ms) && plan == Asked(order, vpath, mountPath)
  }

  function FoundMount(ps: seq<Mount>, cs: Path): Option<Bytes> {
    match SearchMount(ps, cs)
    case Some(done) => Some(PathString(done))
    case None => None
  }

  lemma SearchUnfolds(ps: seq<Mount>, cs: Path)
    ensures SearchMount(ps, cs)
            == if Matching(ps, PathString(cs)) != [] then Some(cs)
               else if cs == [] then None
               else SearchMount(ps, cs[..|cs| - 1])
  {
  }

  lemma ShortComponents(path: Bytes)
    requires |path| < TWO32 && |Simplify(path)| < TWO32
    ensures Split32(Simplify32(path)) == ComponentsOf(path) && Simplify32(path) == Simplify(path)
  {
    SplitRightExactly(|path|);
    SplitRightExactly(|Simplify(path)|);
    SimplifyIdempotent(path);
  }

  /** The same with the 32-bit split. */
  function Asked32(ms: seq<Mount>, vpath: Bytes, mountPath: Bytes): (asked: seq<(nat, Bytes)>)
    ensures |asked| == |ms|
  {
    var rest := if |mountPath| <= |vpath| then vpath[|mountPath|..] else [];
    seq(|ms|, i requires 0 <= i < |ms| => (ms[i].volume, Simplify32(ms[i].entryPath + [SEPARATOR] + rest)))
  }

  ghost predicate IsPlan32(plan: seq<(nat, Bytes)>, ms: seq<Mount>, vpath: Bytes, mountPath: Bytes) {
    exists order :: PriorityOrder(order, ms) && plan == Asked32(order, vpath, mountPath)
  }

  class Storage {
    var mpoints: seq<Mount>
    /** What each volume records of its claims. */
    var volumeClaims: map<nat, Claims>

    constructor ()
      ensures Valid() && InStep(View()) && mpoints == [] && volumeClaims == map[]
    {
      mpoints, volumeClaims := [], map[];
      new;
      NothingMounted(map[]);
    }

    function View(): Vfs
      reads this
    {
      Vfs(mpoints, volumeClaims)
    }

    /** Whatever an unmount has erased: only the claims themselves need be sound. */
    ghost predicate Valid()
      reads this
    {
      Sound(View())
    }

    method Mount(volume: nat, entryPath: Bytes, mountPath: Bytes, priority: nat, opens: bool) returns (status: Status)
      requires Valid()
      modifies this
      ensures Valid()
      ensures (status, View())
              == MountPoint(old(View()), Mounts.Mount(Simplify32(mountPath), Simplify32(entryPath), volume,
                  priority), opens)
      ensures |mountPath| < TWO32 && |entryPath| < TWO32 ==>
                && (status, View()) == MountAt(old(View()), volume, entryPath, mountPath, priority, opens)
                && (InStep(old(View())) ==> InStep(View()))
    {
      ghost var start := View();
      MountStaysSound(start, Mounts.Mount(Simplify32(mountPath), Simplify32(entryPath), volume, priority), opens);
      if |mountPath| < TWO32 && |entryPath| < TWO32 {
        ShortMount(start, volume, entryPath, mountPath, priority, opens);
      }
      ClaimSound(start, volume);
      hide Sound;
      hide MountAt;
      hide Mounts.Inserted;
      hide InStep;
      hide ClaimOf;
      hide Claim;
      hide ClaimTokens.Release;
      hide Simplify;
      hide Simplify32;
      hide ValidClaims;
      hide IsThere;
      if volume == 0 {
        return InvalidArgument;
      }
      var granted, claims := Claim(ClaimOf(View(), volume), ME).0, Claim(ClaimOf(View(), volume), ME).1;
      if !granted.Ok? {
        return InvalidOperation;
      }
      volumeClaims := volumeClaims[volume := claims];
      var mp := SimplifyPath(mountPath);
      var ep := SimplifyPath(entryPath);
      var inserted := InsertPoint(Mounts.Mount(mp, ep, volume, priority), opens);
      if !inserted {
        volumeClaims := volumeClaims[volume := ClaimTokens.Release(claims, ME).1];
        assert volumeClaims == old(volumeClaims)[volume := ClaimTokens.Release(claims, ME).1];
        return InvalidArgument;
      }
      status := Ok;
    }

    /** Opens the entry, and inserts the mount unless there is an equal one. */
    method InsertPoint(entry: Mount, opens: bool) returns (inserted: bool)
      modifies `mpoints
      ensures inserted == (opens && !IsThere(old(mpoints), entry.volume, entry.entryPath, entry.mountPath))
      ensures mpoints == if inserted then Mounts.Inserted(old(mpoints), entry) else old(mpoints)
    {
      if !opens || IsThere(mpoints, entry.volume, entry.entryPath, entry.mountPath) {
        return false;
      }
      mpoints := Mounts.Inserted(mpoints, entry);
      inserted := true;
    }

    method Unmount(volume: nat, entryPath: Bytes, mountPath: Bytes) returns (status: Status)
      requires Valid()
      modifies this
      ensures Valid()
      ensures (status, View()) == UnmountAt(old(View()), volume, entryPath, mountPath)
      ensures InStep(old(View())) ==> (InStep(View()) <==> Rightful(old(mpoints), volume, entryPath, mountPath))
    {
      UnmountStaysSound(View(), volume, entryPath, mountPath);
      if InStep(View()) {
        UnmountKeepsStep(View(), volume, entryPath, mountPath);
      }
      ClaimSound(View(), volume);
      UnmountUnfolds(View(), volume, entryPath, mountPath);
      hide UnmountAt;
      hide Sound;
      hide Rightful;
      hide InStep;
      hide ClaimOf;
      hide Position;
      hide Claim;
      hide ClaimTokens.Release;
      hide ValidClaims;
      if volume == 0 {
        return InvalidArgument;
      }
      var it := FindPoint(volume, entryPath, mountPath);
      if it == |mpoints| {
        return InvalidArgument;
      }
      var released, claims := ClaimTokens.Release(ClaimOf(View(), volume), ME).0,
          ClaimTokens.Release(ClaimOf(View(), volume), ME).1;
      if !released.Ok? {
        return Fatal;
      }
      volumeClaims := volumeClaims[volume := claims];
      mpoints := mpoints[..it] + mpoints[it + 1..];
      status := Ok;
    }

    /** find_if over the mounts at a path; the end of their range when there is none. */
    method FindPoint(volume: nat, entryPath: Bytes, mountPath: Bytes) returns (it: nat)
      ensures it == Position(mpoints, volume, entryPath, mountPath)
    {
      BoundsOrdered(mpoints, mountPath);
      var start, stop := LowerBound(mpoints, mountPath), UpperBound(mpoints, mountPath);
      it := start;
      while it < stop && !(mpoints[it].volume == volume && mpoints[it].entryPath == entryPath)
        invariant start <= it <= stop
        invariant FindIn(mpoints, start, stop, volume, entryPath) == FindIn(mpoints, it, stop, volume, entryPath)
      {
        it := it + 1;
      }
    }

    /** The longest prefix of a simplified path that is a mount point, and its mounts. */
    method SearchMountPathFor(path: Bytes) returns (mountPath: Option<Bytes>, found: seq<Mount>)
      requires Sorted(mpoints)
      ensures found == if mountPath.Some? then Matching(mpoints, mountPath.value) else []
      ensures mountPath.Some? <==> found != []
      ensures mountPath == FoundMount(mpoints, Split32(Simplify32(path)))
      ensures |path| < TWO32 && |Simplify(path)| < TWO32 ==> mountPath == FoundMount(mpoints, ComponentsOf(path))
    {
      if |path| < TWO32 && |Simplify(path)| < TWO32 {
        ShortComponents(path);
      }
      ghost var cs := Split32(Simplify32(path));
      var searchPath := SimplifyPath(path);
      hide Simplify;
      hide Simplify32;
      hide ComponentsOf;
      hide Split;
      hide Split32;
      hide PathString;
      hide SearchMount;
      var it := new ReverseStringPathIterator(searchPath);
      while it.valid
        invariant it.valid ==> SearchMount(mpoints, cs) == SearchMount(mpoints, it.chunks)
        invariant !it.valid ==> SearchMount(mpoints, cs) == None
        decreases if it.valid then 1 + |it.chunks| else 0
      {
        var mpath := it.Current();
        SearchUnfolds(mpoints, it.chunks);
        RangeIsMatching(mpoints, mpath);
        var start, stop := LowerBound(mpoints, mpath), UpperBound(mpoints, mpath);
        if start < stop {
          return Some(mpath), mpoints[start..stop];
        }
        it.Next();
      }
      return None, [];
    }

    /** Every path that is split for a lookup is below the 4 GiB that `split` counts. */
    ghost predicate Short(path: Bytes)
      reads this
    {
      && |path| < TWO32 && |Simplify(path)| < TWO32
      && forall m <- mpoints :: |m.entryPath| + 1 + |Simplify(path)| < TWO32
    }

    /** The volumes a path leads to, in order of priority, each with the path it is asked for. */
    method EntryPlan(path: Bytes) returns (plan: seq<(nat, Bytes)>)
      requires Sorted(mpoints)
      ensures match FoundMount(mpoints, Split32(Simplify32(path)))
              case None => plan == []
              case Some(mpath) => plan != [] && IsPlan32(plan, Matching(mpoints, mpath), Simplify32(path), mpath)
      ensures Short(path) ==>
              match SearchMount(mpoints, ComponentsOf(path))
              case None => plan == []
              case Some(done) =>
                plan != [] && IsPlan(plan, Matching(mpoints, PathString(done)), Simplify(path), PathString(done))
    {
      if Short(path) {
        ShortPlan(mpoints, path);
      }
      hide *;
      plan := [];
      var vpath := SimplifyPath(path);
      var mountPath, found := SearchMountPathFor(path);
      if mountPath.None? {
        return;
      }
      var sorted := SortByPriority(found);
      OrderLengths(sorted, found);
      plan := AskEach(sorted, vpath, mountPath.value);
      PlanIs(plan, sorted, found, vpath, mountPath.value);
    }

    method AskEach(sorted: seq<Mount>, vpath: Bytes, mountPath: Bytes) returns (plan: seq<(nat, Bytes)>)
      ensures plan == Asked32(sorted, vpath, mountPath)
    {
      hide Simplify32;
      plan := [];
      var subvpath := if |mountPath| <= |vpath| then vpath[|mountPath|..] else [];
      for i := 0 to |sorted|
        invariant |plan| == i
        invariant forall j :: 0 <= j < i ==>
                    plan[j] == (sorted[j].volume, Simplify32(sorted[j].entryPath + [SEPARATOR] + subvpath))
      {
        var subpath := SimplifyPath(sorted[i].entryPath + [SEPARATOR] + subvpath);
        plan := plan + [(sorted[i].volume, subpath)];
      }
    }
  }

  lemma OrderLengths(sorted: seq<Mount>, ms: seq<Mount>)
    requires PriorityOrder(sorted, ms)
    ensures |sorted| == |ms|
  {
    assert |multiset(sorted)| == |multiset(ms)|;
  }

  lemma PlanIs(plan: seq<(nat, Bytes)>, sorted: seq<Mount>, ms: seq<Mount>, vpath: Bytes, mountPath: Bytes)
    requires PriorityOrder(sorted, ms) && plan == Asked32(sorted, vpath, mountPath)
    ensures IsPlan32(plan, ms, vpath, mountPath)
  {
    hide PriorityOrder;
    hide Asked32;
  }

  /** Where the splitter can count every path, the plan is the one on components. */
  lemma ShortPlan(points: seq<Mount>, path: Bytes)
    requires |path| < TWO32 && |Simplify(path)| < TWO32
    requires forall m <- points :: |m.entryPath| + 1 + |Simplify(path)| < TWO32
    ensures FoundMount(points, Split32(Simplify32(path))) == FoundMount(points, ComponentsOf(path))
    ensures match SearchMount(points, ComponentsOf(path))
            case None => FoundMount(points, ComponentsOf(path)) == None
            case Some(done) => FoundMount(points, ComponentsOf(path)) == Some(PathString(done))
    ensures forall plan, mpath ::
              IsPlan32(plan, Matching(points, mpath), Simplify32(path), mpath)
              ==> IsPlan(plan, Matching(points, mpath), Simplify(path), mpath)
  {
    ShortComponents(path);
    hide PriorityOrder;
    hide Simplify;
    hide Simplify32;
    hide ComponentsOf;
    hide SearchMount;
    forall plan, mpath | IsPlan32(plan, Matching(points, mpath), Simplify32(path), mpath)
      ensures IsPlan(plan, Matching(points, mpath), Simplify(path), mpath)
    {
      var order :| PriorityOrder(order, Matching(points, mpath)) && plan == Asked32(order, Simplify32(path), mpath);
      SameAsked(points, order, Simplify(path), mpath);
    }
  }

  lemma SameAsked(points: seq<Mount>, order: seq<Mount>, vpath: Bytes, mountPath: Bytes)
    requires PriorityOrder(order, Matching(points, mountPath))
    requires forall m <- points :: |m.entryPath| + 1 + |vpath| < TWO32
    ensures Asked32(order, vpath, mountPath) == Asked(order, vpath, mountPath)
  {
    OrderMembers(order, Matching(points, mountPath), points, mountPath);
    hide *;
    forall i | 0 <= i < |order| ensures Asked32(order, vpath, mountPath)[i] == Asked(order, vpath, mountPath)[i] {
      assert order[i] in points;
      SameAskedAt(order, vpath, mountPath, i);
    }
  }

  lemma SameAskedAt(order: seq<Mount>, vpath: Bytes, mountPath: Bytes, i: nat)
    requires i < |order| && |order[i].entryPath| + 1 + |vpath| < TWO32
    ensures Asked32(order, vpath, mountPath)[i] == Asked(order, vpath, mountPath)[i]
  {
    var rest := if |mountPath| <= |vpath| then vpath[|mountPath|..] else [];
    SplitRightExactly(|order[i].entryPath + [SEPARATOR] + rest|);
    hide Simplify;
    hide Simplify32;
  }

  /** The mounts at a path are all of the mounts with that path. */
  lemma {:induction false} MatchingMembers(ps: seq<Mount>, path: Bytes)
    ensures forall m :: m in Matching(ps, path) <==> m in ps && m.mountPath == path
  {
    if ps != [] {
      MatchingMembers(ps[1..], path);
      assert ps == [ps[0]] + ps[1..];
    }
  }

  lemma OrderMembers(sorted: seq<Mount>, found: seq<Mount>, ps: seq<Mount>, path: Bytes)
    requires PriorityOrder(sorted, found) && found == Matching(ps, path)
    ensures |sorted| == |found| && forall i :: 0 <= i < |sorted| ==> sorted[i] in ps
  {
    MatchingMembers(ps, path);
    assert |multiset(sorted)| == |multiset(found)|;
    forall i | 0 <= i < |sorted| ensures sorted[i] in ps {
      assert sorted[i] in multiset(sorted);
      assert sorted[i] in found;
    }
  }
}
