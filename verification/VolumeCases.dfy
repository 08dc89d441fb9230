// A run that shows a volume hiding an entry: the name of an unlinked child linked again, behind
// a cached path (lib/ondisk/Volume_p.hpp:187-255).
//
// The walk caches a path under the name it is looked up by only if it starts at the root because
// nothing was cached; started at a cached root it caches "//a", which no lookup asks for. So the
// run looks "/a" up first thing after initialize.

module VolumeCases {
  import opened Wrappers
  import opened Serialization
  import opened Records
  import opened Engines
  import opened EngineRuns
  import opened Paths
  import opened MRUCaches
  import opened Volumes
  import opened VolumeRefinement
  import V = VolumeRuns

  const A: Bytes := [97]
  const ROOT_PATH: Bytes := PathString([])
  const A_PATH: Bytes := PathString([A])

  /** A child record as link makes it, and the root record with one child. */
  function Child(c: nat): Rec {
    NewRec(c, A).(parent := ROOT_HANDLE)
  }

  function RootOf(c: nat): Rec {
    ROOT_RECORD.(children := map[A := c])
  }

  // The states of the run, in turn.

  const FOUND_ROOT: Volume := Volume(NEW_STORE, map[ROOT_HANDLE := Entry(ROOT_RECORD, false)],
      [(ROOT_PATH, ROOT_HANDLE)])

  const LINKED_A: Volume :=
    Volume(Spec(map[ROOT_HANDLE := ROOT_RECORD, 2 := Child(2)], 3), map[ROOT_HANDLE := Entry(RootOf(2), true)],
        [(ROOT_PATH, ROOT_HANDLE)])

  const STORED_A: Spec := Spec(map[ROOT_HANDLE := RootOf(2), 2 := Child(2)], 3)
  const CACHED: Cache<Bytes, nat> := [(ROOT_PATH, ROOT_HANDLE), (A_PATH, 2)]

  const REINITIALIZED: Volume := Volume(STORED_A, map[], [])
  const FOUND_A: Volume := Volume(STORED_A, map[2 := Entry(Child(2), false)], [(A_PATH, 2), (ROOT_PATH, ROOT_HANDLE)])

  const FOUND_BOTH: Volume :=
    Volume(STORED_A, map[ROOT_HANDLE := Entry(RootOf(2), false), 2 := Entry(Child(2), false)], CACHED)

  const RELEASED_A: Volume := Volume(STORED_A, map[ROOT_HANDLE := Entry(RootOf(2), false)], CACHED)

  const UNLINKED_A: Volume :=
    Volume(Spec(map[ROOT_HANDLE := RootOf(2)], 3), map[ROOT_HANDLE := Entry(ROOT_RECORD, true)], CACHED)

  const RELINKED_A: Volume :=
    Volume(Spec(map[ROOT_HANDLE := RootOf(2), 3 := Child(3)], 4), map[ROOT_HANDLE := Entry(RootOf(3), true)], CACHED)

  lemma Facts(now: int)
    ensures Names([]) && Names([A]) && ValidName(A) && ROOT_PATH != A_PATH && ROOT_PATH == [SEPARATOR]
    ensures ComponentsOf(ROOT_PATH) == [] && ComponentsOf(A_PATH) == [A]
    ensures Cleanup(ROOT_RECORD, now) == ROOT_RECORD
    ensures forall c: nat :: Cleanup(Child(c), now) == Child(c) && Cleanup(RootOf(c), now) == RootOf(c)
  {
    PathStringIsSimple([]);
    PathStringIsSimple([A]);
    forall c: nat ensures Cleanup(Child(c), now) == Child(c) && Cleanup(RootOf(c), now) == RootOf(c) {
      assert ExpiredProps(Child(c), now) == {} && ExpiredProps(RootOf(c), now) == {};
    }
    assert ExpiredProps(ROOT_RECORD, now) == {};
  }

  lemma InsertsRoot()
    ensures Inserted([], [SEPARATOR], ROOT_HANDLE, PATH_CACHE_SIZE) == [(ROOT_PATH, ROOT_HANDLE)]
  {
    var c: Cache<Bytes, nat> := [];
    assert [([SEPARATOR], ROOT_HANDLE)] + c == [([SEPARATOR], ROOT_HANDLE)];
  }

  /** Looking the root up: a miss at first, a hit once it is cached. */
  lemma FindsRoot(now: int)
    ensures VStep(NEW_VOLUME, FindOp(ROOT_PATH, now)) == (FoundIs(Some(ROOT_HANDLE)), FOUND_ROOT)
  {
    Facts(now);
    hide PathString;
    hide ComponentsOf;
    hide Cleanup;
    var (hit, cache) := SearchCached([], []);
    assert PathString([]) == ROOT_PATH;
    assert hit == None && cache == [];
    InsertsRoot();
    var v1 := NEW_VOLUME.(cache := [(ROOT_PATH, ROOT_HANDLE)]);
    assert FindHandle(NEW_VOLUME, []) == (Some(ROOT_HANDLE), v1);
    assert OpenHandle(v1, ROOT_HANDLE, now) == (Some(ROOT_HANDLE), FOUND_ROOT) by {
      assert map[][ROOT_HANDLE := Entry(ROOT_RECORD, false)] == map[ROOT_HANDLE := Entry(ROOT_RECORD, false)];
    }
  }

  lemma FindsRootAgain(now: int)
    ensures VStep(FOUND_A, FindOp(ROOT_PATH, now)) == (FoundIs(Some(ROOT_HANDLE)), FOUND_BOTH)
  {
    Facts(now);
    hide PathString;
    hide ComponentsOf;
    hide Cleanup;
    assert PathString([]) == ROOT_PATH;
    var c := FOUND_A.cache;
    assert IndexOf(c, ROOT_PATH) == 1;
    assert Touch(c, ROOT_PATH) == CACHED;
    assert SearchCached(c, []) == (Some((ROOT_HANDLE, [])), CACHED);
    var v1 := FOUND_A.(cache := CACHED);
    assert FindHandle(FOUND_A, []) == (Some(ROOT_HANDLE), v1);
    assert v1.entries[ROOT_HANDLE := Entry(RootOf(2), false)] == FOUND_BOTH.entries;
  }

  /** The link of "a", at a counter that has not been used. */
  lemma LinksAt(v: Volume, m: map<nat, Rec>, c: nat, now: int)
    requires v.disk == Spec(m, c) && ROOT_HANDLE in v.entries && v.entries[ROOT_HANDLE].rec == ROOT_RECORD
    ensures Link(v, ROOT_HANDLE, A, true, now)
            == (Ok, v.(disk := Spec(m[c := Child(c)], c + 1),
                entries := v.entries[ROOT_HANDLE := Entry(RootOf(c), true)]))
  {
    Facts(now);
    hide ValidName;
    hide Cleanup;
    assert map[][A := c] == map[A := c];
  }

  lemma LinksA(now: int)
    ensures VStep(FOUND_ROOT, LinkOp(ROOT_HANDLE, A, true, now)) == (Did(Ok), LINKED_A)
    ensures VStep(UNLINKED_A, LinkOp(ROOT_HANDLE, A, true, now)) == (Did(Ok), RELINKED_A)
  {
    hide Link;
    LinksAt(FOUND_ROOT, NEW_STORE.m, 2, now);
    LinksAt(UNLINKED_A, UNLINKED_A.disk.m, 3, now);
    assert NEW_STORE.m[2 := Child(2)] == LINKED_A.disk.m;
    assert UNLINKED_A.disk.m[3 := Child(3)] == RELINKED_A.disk.m;
    assert FOUND_ROOT.entries[ROOT_HANDLE := Entry(RootOf(2), true)] == LINKED_A.entries;
    assert UNLINKED_A.entries[ROOT_HANDLE := Entry(RootOf(3), true)] == RELINKED_A.entries;
  }

  lemma Reinitializes(now: int)
    ensures VStep(LINKED_A, ReinitOp(now)) == (Did(Ok), REINITIALIZED)
  {
    Facts(now);
    hide Cleanup;
    assert Flushed(LINKED_A, now).m == STORED_A.m;
  }

  lemma WalksToA()
    ensures var v := Volume(STORED_A, map[], [(ROOT_PATH, ROOT_HANDLE)]);
            WalkDown(v, ROOT_HANDLE, [A], []) == (Some(2), v.(cache := [(A_PATH, 2), (ROOT_PATH, ROOT_HANDLE)]))
  {
    Facts(0);
    var v := Volume(STORED_A, map[], [(ROOT_PATH, ROOT_HANDLE)]);
    assert A_PATH == [] + ([SEPARATOR] + A) by { assert Joined([A][1..]) == []; }
    hide PathString;
    assert [A][1..] == [];
    assert IndexOf(v.cache, A_PATH) == 1;
    assert Inserted(v.cache, A_PATH, 2, PATH_CACHE_SIZE) == [(A_PATH, 2), (ROOT_PATH, ROOT_HANDLE)];
    assert ChildrenOf(v, ROOT_HANDLE) == Some(map[A := 2]);
  }

  lemma FindsA(now: int)
    ensures VStep(REINITIALIZED, FindOp(A_PATH, now)) == (FoundIs(Some(2)), FOUND_A)
  {
    Facts(now);
    WalksToA();
    hide PathString;
    hide ComponentsOf;
    hide Cleanup;
    hide WalkDown;
    assert [A][..0] == [];
    assert SearchCached([], []) == (None, []);
    assert SearchCached([], [A]) == (None, []);
    InsertsRoot();
    hide Inserted;
    assert FindHandle(REINITIALIZED, [A]) == (Some(2), FOUND_A.(entries := map[]));
    assert map[][2 := Entry(Child(2), false)] == FOUND_A.entries;
  }

  lemma ReleasesAndUnlinksA(now: int)
    ensures VStep(FOUND_BOTH, ReleaseOp(2, now)) == (Did(Ok), RELEASED_A)
    ensures VStep(RELEASED_A, UnlinkOp(ROOT_HANDLE, A, now)) == (Did(Ok), UNLINKED_A)
  {
    hide PathString;
    assert FOUND_BOTH.entries - {2} == RELEASED_A.entries;
    assert STORED_A.m - {2} == UNLINKED_A.disk.m;
    assert WithoutHandle(map[A := 2], 2) == map[];
    assert RELEASED_A.entries[ROOT_HANDLE := Entry(ROOT_RECORD, true)] == UNLINKED_A.entries;
  }

  lemma HidesA(now: int)
    ensures VStep(RELINKED_A, FindOp(A_PATH, now)).0 == FoundIs(None)
    ensures Walk(View(RELINKED_A), ROOT_HANDLE, [A]) == Some(3)
  {
    Facts(now);
    OneStep(View(RELINKED_A), ROOT_HANDLE, A);
    hide PathString;
    hide ComponentsOf;
    hide Walk;
    assert PathString([A]) == A_PATH;
    assert IndexOf(CACHED, A_PATH) == 1;
    assert SearchCached(CACHED, [A]).0 == Some((2, [A]));
    assert FindHandle(RELINKED_A, [A]).0 == Some(2);
  }

  // ---------------------------------------------------------------------------
  // The run

  /** A step of the run, from its state to the next. */
  ghost predicate Leads(v: Volume, op: VOp, out: VOut, w: Volume, now: int) {
    && op.now == now && !op.MutateOp? && v.disk.counter + 1 < TWO64
    && v.entries.Keys <= v.disk.m.Keys && Asks(v.entries.Keys, op) && VStep(v, op) == (out, w)
  }

  /** States that lead from one to the next are those of a run. */
  lemma {:induction false} LeadsRun(states: seq<Volume>, ops: seq<VOp>, outs: seq<VOut>, t: Model, now: int)
    requires |states| == |ops| + 1 && |outs| == |ops| && V.Refines(states[0], t, now)
    requires forall i :: 0 <= i < |ops| ==> Leads(states[i], ops[i], outs[i], states[i + 1], now)
    ensures VolumeRefinement.Runs(states[0], t, ops, now) && RunVolume(states[0], t, ops, now) == (outs, states[|ops|])
    decreases |ops|
  {
    hide V.Refines;
    hide VStep;
    hide ModelStep;
    hide Hint;
    if ops != [] {
      assert Leads(states[0], ops[0], outs[0], states[1], now);
      LeadsGuard(states[0], t, ops[0], now);
      VolumeRefinement.StepRefines(states[0], t, ops[0], now);
      var u := ModelStep(t, ops[0], Hint(states[0], ops[0])).1;
      assert forall i :: 0 <= i < |ops[1..]| ==>
          Leads(states[1..][i], ops[1..][i], outs[1..][i], states[1..][i + 1], now);
      LeadsRun(states[1..], ops[1..], outs[1..], u, now);
      assert outs == [outs[0]] + outs[1..];
    }
  }

  lemma LeadsGuard(v: Volume, t: Model, op: VOp, now: int)
    requires V.Refines(v, t, now) && v.entries.Keys <= v.disk.m.Keys && Asks(v.entries.Keys, op)
    requires !op.MutateOp? && v.disk.counter + 1 < TWO64
    ensures t.held <= t.tree.Keys && t.held == v.entries.Keys && VolumeRefinement.Guard(v, t, op)
  {
    RefinesGives(v, t, now);
    hide V.Refines;
  }

  function Ops(now: int): seq<VOp> {
    [FindOp(ROOT_PATH, now), LinkOp(ROOT_HANDLE, A, true, now), ReinitOp(now), FindOp(A_PATH, now),
     FindOp(ROOT_PATH, now), ReleaseOp(2, now), UnlinkOp(ROOT_HANDLE, A, now), LinkOp(ROOT_HANDLE, A, true, now)]
  }

  const OUTS: seq<VOut> :=
    [FoundIs(Some(ROOT_HANDLE)), Did(Ok), Did(Ok), FoundIs(Some(2)), FoundIs(Some(ROOT_HANDLE)), Did(Ok),
     Did(Ok), Did(Ok)]

  const STATES: seq<Volume> :=
    [NEW_VOLUME, FOUND_ROOT, LINKED_A, REINITIALIZED, FOUND_A, FOUND_BOTH, RELEASED_A, UNLINKED_A, RELINKED_A]

  lemma AllLead(now: int)
    ensures forall i :: 0 <= i < 8 ==> Leads(STATES[i], Ops(now)[i], OUTS[i], STATES[i + 1], now)
  {
    hide VStep;
    FindsRoot(now);
    LinksA(now);
    Reinitializes(now);
    FindsA(now);
    FindsRootAgain(now);
    ReleasesAndUnlinksA(now);
  }

  /**
   * From a new volume, by calls that all succeed, to a state where the walk to "/a" finds the
   * child that is there and a lookup of "/a" finds nothing.
   */
  lemma RelinkHidesInARun(now: int)
    ensures V.Refines(NEW_VOLUME, NEW_MODEL, now) && VolumeRefinement.Runs(NEW_VOLUME, NEW_MODEL, Ops(now), now)
    ensures RunVolume(NEW_VOLUME, NEW_MODEL, Ops(now), now) == (OUTS, RELINKED_A)
    ensures Walk(View(RELINKED_A), ROOT_HANDLE, ComponentsOf(A_PATH)) == Some(3)
    ensures FindEntry(RELINKED_A, A_PATH, now).0 == None
  {
    hide Leads;
    NewVolumeRefines(now);
    AllLead(now);
    HidesA(now);
    Facts(now);
    hide PathString;
    hide ComponentsOf;
    hide Walk;
    hide FindEntry;
    hide V.Refines;
    LeadsRun(STATES, Ops(now), OUTS, NEW_MODEL, now);
  }
}
