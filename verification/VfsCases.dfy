// A run in which unmounting what is not mounted erases the mount of another volume
// (lib/vfs/Storage_p.hpp:262-287).

module VfsCases {
  import opened Wrappers
  import opened Serialization
  import opened Paths
  import opened ClaimTokens
  import opened Mounts
  import opened VfsStorages

  const ROOT_PATH: Bytes := PathString([])
  const A_PATH: Bytes := PathString([[97]])
  const B_PATH: Bytes := PathString([[98]])

  /** The second volume at "/a" and the first at "/b", each by its root entry. */
  const AT_A: Mount := Mount(A_PATH, ROOT_PATH, 2, 0)
  const AT_B: Mount := Mount(B_PATH, ROOT_PATH, 1, 0)

  // The states of the run, in turn.

  const NOTHING: Vfs := Vfs([], map[])
  const ONE: Vfs := Vfs([AT_A], map[2 := Claims(ME, 1)])
  const BOTH: Vfs := Vfs([AT_A, AT_B], map[2 := Claims(ME, 1), 1 := Claims(ME, 1)])
  const WRONGED: Vfs := Vfs([AT_B], map[2 := Claims(ME, 1), 1 := UNCLAIMED])

  lemma SimplePaths()
    ensures Simplify(ROOT_PATH) == ROOT_PATH && Simplify(A_PATH) == A_PATH && Simplify(B_PATH) == B_PATH
    ensures ROOT_PATH == [SEPARATOR] && A_PATH == [SEPARATOR, 97] && B_PATH == [SEPARATOR, 98]
  {
    PathStringIsSimple([]);
    PathStringIsSimple([[97]]);
    PathStringIsSimple([[98]]);
    hide Simplify;
    hide Split;
    hide ComponentsOf;
    hide Resolve;
    OneName([97]);
    OneName([98]);
  }

  lemma OneName(c: Bytes)
    ensures PathString([c]) == [SEPARATOR] + c
  {
    assert Joined([c]) == [SEPARATOR] + c + Joined([c][1..]);
  }

  lemma PathsAscend()
    ensures Less(ROOT_PATH, A_PATH) && Less(A_PATH, B_PATH) && Less(ROOT_PATH, B_PATH)
    ensures !Less(B_PATH, A_PATH) && !Less(A_PATH, ROOT_PATH)
  {
    SimplePaths();
    assert ROOT_PATH[1..] == [] && A_PATH[1..] == [97] && B_PATH[1..] == [98];
    LessIsTotal(A_PATH, B_PATH);
    LessIsTotal(ROOT_PATH, A_PATH);
  }

  lemma Mounting()
    ensures MountAt(NOTHING, 2, ROOT_PATH, A_PATH, 0, true) == (Ok, ONE)
    ensures MountAt(ONE, 1, ROOT_PATH, B_PATH, 0, true) == (Ok, BOTH)
  {
    SimplePaths();
    PathsAscend();
    hide Simplify;
    hide Less;
    hide PathString;
    assert Mounts.Inserted([AT_A], AT_B) == [AT_A] + Mounts.Inserted([AT_A][1..], AT_B);
    assert Mounts.Inserted([AT_A], AT_B) == [AT_A, AT_B];
    assert !IsThere(ONE.points, 1, ROOT_PATH, B_PATH);
    assert ONE.claims[1 := Claims(ME, 1)] == BOTH.claims;
  }

  lemma Unmounting()
    ensures !IsThere(BOTH.points, 1, ROOT_PATH, ROOT_PATH)
    ensures UnmountAt(BOTH, 1, ROOT_PATH, ROOT_PATH) == (Ok, WRONGED)
    ensures UnmountAt(WRONGED, 1, ROOT_PATH, B_PATH) == (Fatal, WRONGED)
  {
    SimplePaths();
    PathsAscend();
    LessIsTotal(B_PATH, B_PATH);
    hide Simplify;
    hide Less;
    hide PathString;
    assert [AT_B][1..] == [];
    assert Without(BOTH.points, 0) == [AT_B];
    assert Position(BOTH.points, 1, ROOT_PATH, ROOT_PATH) == 0;
    assert BOTH.claims[1 := UNCLAIMED] == WRONGED.claims;
  }

  /** A run of mounts that both succeed. */
  const OPS: seq<VfsOp> := [MountOp(2, ROOT_PATH, A_PATH, 0, true), MountOp(1, ROOT_PATH, B_PATH, 0, true)]

  /**
   * The first volume is not mounted at the root, yet unmounting it there reports success and
   * erases the mount of the second. The second volume stays claimed with no mount of it; the
   * first is mounted and claimed by nobody, and unmounting it where it is mounted fails.
   */
  lemma WrongMountGoes()
    ensures InStep(NOTHING) && VfsRuns(NOTHING, OPS) && VfsRun(NOTHING, OPS) == BOTH && InStep(BOTH)
    ensures !IsThere(BOTH.points, 1, ROOT_PATH, ROOT_PATH) && !Rightful(BOTH.points, 1, ROOT_PATH, ROOT_PATH)
    ensures UnmountAt(BOTH, 1, ROOT_PATH, ROOT_PATH) == (Ok, WRONGED) && WRONGED.points == [AT_B]
    ensures Claimed(ClaimOf(WRONGED, 2)) && Count(WRONGED.points, 2) == 0
    ensures !Claimed(ClaimOf(WRONGED, 1)) && Count(WRONGED.points, 1) == 1 && !InStep(WRONGED)
    ensures UnmountAt(WRONGED, 1, ROOT_PATH, B_PATH) == (Fatal, WRONGED)
  {
    Mounting();
    Unmounting();
    NothingMounted(map[]);
    MountKeepsStep(NOTHING, 2, ROOT_PATH, A_PATH, 0, true);
    MountKeepsStep(ONE, 1, ROOT_PATH, B_PATH, 0, true);
    UnmountKeepsStep(BOTH, 1, ROOT_PATH, ROOT_PATH);
    OutOfStep();
    hide InStep;
    hide MountAt;
    hide UnmountAt;
    hide Rightful;
    hide IsThere;
    hide PathString;
    hide Less;
    hide Simplify;
    TheRun();
    hide OPS;
    hide VfsRuns;
    hide VfsRun;
  }

  lemma TheRun()
    ensures VfsRuns(NOTHING, OPS) && VfsRun(NOTHING, OPS) == BOTH
  {
    Mounting();
    hide MountAt;
    hide PathString;
    assert OPS[1..] == [OPS[1]] && [OPS[1]][1..] == [];
    assert VfsStep(NOTHING, OPS[0]) == ONE && VfsStep(ONE, OPS[1]) == BOTH;
    assert VfsRuns(BOTH, []) && VfsRun(BOTH, []) == BOTH;
    assert VfsRuns(ONE, [OPS[1]]) && VfsRun(ONE, [OPS[1]]) == VfsRun(BOTH, []);
  }

  lemma OutOfStep()
    ensures Count(WRONGED.points, 2) == 0 && Count(WRONGED.points, 1) == 1 && !InStep(WRONGED)
  {
    assert WRONGED.points[1..] == [];
    assert Owned(ClaimOf(WRONGED, 2), ME) == 1;
  }
}
