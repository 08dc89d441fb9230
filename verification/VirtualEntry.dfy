// The merged view of several entries, highest priority first: calls spread over a thread pool
// with the results collected in order, and the merge of what they return (lib/vfs/VirtualEntry.cpp).

module VirtualEntries {
  import opened Wrappers
  import opened Serialization
  import opened Properties
  import opened Records
  import opened Volumes
  import opened VolumeObjects

  datatype Call =
    | HasCall(prop: Bytes)
    | PropertyCall(prop: Bytes)
    | PropertiesCall
    | NamesCall
    | LinksCall
    | MutateCall(m: Mutation)

  datatype Answer =
    | HasIs(has: bool)
    | PropertyIs(value: Option<Property>)
    | PropertiesAre(props: map<Bytes, Property>)
    | NamesAre(names: set<Bytes>)
    | LinksAre(links: set<Bytes>)
    | StatusIs(status: Status)

  /** One call on one entry: its answer and the record it leaves. */
  function CallOn(r: Rec, call: Call, now: int): (Answer, Rec) {
    match call
    case HasCall(p) => (HasIs(HasProp(r, p, now)), r)
    case PropertyCall(p) => (PropertyIs(GetProp(r, p, now)), r)
    case PropertiesCall => (PropertiesAre(VisibleProps(r, now)), r)
    case NamesCall => (NamesAre(VisibleProps(r, now).Keys), r)
    case LinksCall => (LinksAre(r.children.Keys), r)
    case MutateCall(m) => (StatusIs(MutationStatus(r, m, now)), Mutated(r, m, now))
  }

  // ---------------------------------------------------------------------------
  // Any schedule

  /** Each of the calls on `n` entries, once, in the order in which they happen to run. */
  predicate IsSchedule(schedule: seq<nat>, n: nat) {
    && (forall k :: 0 <= k < |schedule| ==> schedule[k] < n)
    && (forall j, k :: 0 <= j < k < |schedule| ==> schedule[j] != schedule[k])
    && (forall i: nat :: i < n ==> i in schedule)
  }

  /** The futures and the records once the calls of `schedule` have run, one by one. */
  function Executed(recs: seq<Rec>, call: Call, nows: seq<int>, schedule: seq<nat>): (seq<Option<Answer>>, seq<Rec>)
    requires |nows| == |recs| && forall k :: 0 <= k < |schedule| ==> schedule[k] < |recs|
    ensures |Executed(recs, call, nows, schedule).0| == |Executed(recs, call, nows, schedule).1| == |recs|
    decreases |schedule|
  {
    if schedule == [] then (seq(|recs|, _ => None), recs)
    else
      var last := |schedule| - 1;
      var (futures, rs) := Executed(recs, call, nows, schedule[..last]);
      var i := schedule[last];
      var (answer, r) := CallOn(rs[i], call, nows[i]);
      (futures[i := Some(answer)], rs[i := r])
  }

  lemma {:induction false} ExecutedSoFar(recs: seq<Rec>, call: Call, nows: seq<int>, schedule: seq<nat>)
    requires |nows| == |recs| && forall k :: 0 <= k < |schedule| ==> schedule[k] < |recs|
    requires forall j, k :: 0 <= j < k < |schedule| ==> schedule[j] != schedule[k]
    ensures var (futures, rs) := Executed(recs, call, nows, schedule);
            forall i :: 0 <= i < |recs| ==>
              if i in schedule then futures[i] == Some(CallOn(recs[i], call, nows[i]).0)
                  && rs[i] == CallOn(recs[i], call, nows[i]).1
              else futures[i] == None && rs[i] == recs[i]
    decreases |schedule|
  {
    hide CallOn;
    if schedule != [] {
      var last := |schedule| - 1;
      ExecutedSoFar(recs, call, nows, schedule[..last]);
      assert schedule == schedule[..last] + [schedule[last]];
      assert schedule[last] !in schedule[..last];
    }
  }

  /**
   * Whatever the schedule, the i-th result is the i-th entry's answer and each record is what
   * its own call leaves: the order in which the calls ran does not show.
   */
  lemma AnyScheduleSameResults(recs: seq<Rec>, call: Call, nows: seq<int>, schedule: seq<nat>)
    requires |nows| == |recs| && IsSchedule(schedule, |recs|)
    ensures var (futures, rs) := Executed(recs, call, nows, schedule);
            forall i :: 0 <= i < |recs| ==>
              futures[i] == Some(CallOn(recs[i], call, nows[i]).0) && rs[i] == CallOn(recs[i], call, nows[i]).1
  {
    hide CallOn;
    ExecutedSoFar(recs, call, nows, schedule);
  }

  // ---------------------------------------------------------------------------
  // The merge

  /** The union of the visible properties, the first entry that has one deciding. */
  function Union(recs: seq<Rec>, now: int): map<Bytes, Property> {
    if recs == [] then map[] else Union(recs[1..], now) + VisibleProps(recs[0], now)
  }

  lemma {:induction false} UnionHas(recs: seq<Rec>, p: Bytes, now: int)
    ensures p in Union(recs, now) <==> exists i :: 0 <= i < |recs| && HasProp(recs[i], p, now)
    ensures forall i :: (0 <= i < |recs| && HasProp(recs[i], p, now)
                         && forall j :: 0 <= j < i ==> !HasProp(recs[j], p, now)) ==>
              p in Union(recs, now) && Union(recs, now)[p] == recs[i].props[p]
  {
    if recs != [] {
      UnionHas(recs[1..], p, now);
      assert forall i :: 0 <= i < |recs[1..]| ==> recs[1..][i] == recs[i + 1];
      if p in Union(recs[1..], now) {
        var i :| 0 <= i < |recs[1..]| && HasProp(recs[1..][i], p, now);
        assert HasProp(recs[i + 1], p, now);
      }
      forall i | 0 <= i < |recs| && HasProp(recs[i], p, now) && (forall j :: 0 <= j < i ==> !HasProp(recs[j], p, now))
        ensures p in Union(recs, now) && Union(recs, now)[p] == recs[i].props[p]
      {
        if i > 0 {
          assert !HasProp(recs[0], p, now);
          assert recs[1..][i - 1] == recs[i];
          assert forall j :: 0 <= j < i - 1 ==> !HasProp(recs[1..][j], p, now);
        }
      }
    }
  }

  lemma {:induction false} UnionLast(recs: seq<Rec>, r: Rec, now: int)
    ensures Union(recs + [r], now) == VisibleProps(r, now) + Union(recs, now)
  {
    hide VisibleProps;
    if recs == [] {
      assert [r][1..] == [];
    } else {
      assert (recs + [r])[1..] == recs[1..] + [r];
      UnionLast(recs[1..], r, now);
    }
  }

  function AfterMutation(recs: seq<Rec>, m: Mutation, now: int): (rs: seq<Rec>)
    ensures |rs| == |recs| && forall i :: 0 <= i < |rs| ==> rs[i] == Mutated(recs[i], m, now)
  {
    seq(|recs|, i requires 0 <= i < |recs| => Mutated(recs[i], m, now))
  }

  /** After a property has been set on every entry, the merged property is that value, at any time. */
  lemma SetThenGet(recs: seq<Rec>, p: Bytes, value: Property, now: int, later: int, q: Bytes)
    requires recs != []
    ensures var u := Union(AfterMutation(recs, SetP(p, value), now), later);
            && p in u && u[p] == value
            && (q != p ==> (q in u <==> q in Union(recs, later)) && (q in u ==> u[q] == Union(recs, later)[q]))
  {
    var rs := AfterMutation(recs, SetP(p, value), now);
    UnionHas(rs, p, later);
    assert HasProp(rs[0], p, later);
    if q != p {
      SameVisible(rs, recs, q, later, later);
    }
  }

  /** Entry by entry the same visible property: the same in the union. */
  lemma {:induction false} SameVisible(a: seq<Rec>, b: seq<Rec>, q: Bytes, t1: int, t2: int)
    requires |a| == |b| && forall i :: 0 <= i < |a| ==> GetProp(a[i], q, t1) == GetProp(b[i], q, t2)
    ensures q in Union(a, t1) <==> q in Union(b, t2)
    ensures q in Union(a, t1) ==> Union(a, t1)[q] == Union(b, t2)[q]
  {
    if a != [] {
      assert GetProp(a[0], q, t1) == GetProp(b[0], q, t2);
      assert forall i :: 0 <= i < |a[1..]| ==> a[1..][i] == a[i + 1] && b[1..][i] == b[i + 1];
      SameVisible(a[1..], b[1..], q, t1, t2);
    }
  }

  /** After a property has been removed from every entry, nothing is left of it. */
  lemma RemoveThenGone(recs: seq<Rec>, p: Bytes, now: int, later: int)
    ensures p !in Union(AfterMutation(recs, RemoveP(p), now), later)
  {
    UnionHas(AfterMutation(recs, RemoveP(p), now), p, later);
  }

  /** After expireProperty the merged property stays what it was for that long, and then is gone. */
  lemma ExpireThenGone(recs: seq<Rec>, p: Bytes, ms: int, now: int, later: int)
    requires now <= later
    ensures var u := Union(AfterMutation(recs, ExpireP(p, ms), now), later);
            if later < now + ms then (p in u <==> p in Union(recs, now)) && (p in u ==> u[p] == Union(recs, now)[p])
            else p !in u
  {
    var rs := AfterMutation(recs, ExpireP(p, ms), now);
    if later < now + ms {
      SameVisible(rs, recs, p, later, now);
    } else {
      UnionHas(rs, p, later);
    }
  }

  /** A mutation of every entry shows in no merged property but its own. */
  lemma MutationLeavesMerged(recs: seq<Rec>, m: Mutation, now: int, q: Bytes, later: int)
    requires q != m.prop
    ensures var u, w := Union(recs, later), Union(AfterMutation(recs, m, now), later);
            (q in w <==> q in u) && (q in w ==> w[q] == u[q])
  {
    var rs := AfterMutation(recs, m, now);
    forall i | 0 <= i < |recs| ensures GetProp(rs[i], q, later) == GetProp(recs[i], q, later) {
      MutationLeavesOthers(recs[i], m, now, q, later);
    }
    SameVisible(rs, recs, q, later, later);
  }

  /**
   * After its expiration is cancelled the merged property is there at every later time, with the
   * value of the first entry that holds it.
   */
  lemma CancelThenStays(recs: seq<Rec>, p: Bytes, now: int, later: int, i: nat)
    requires i < |recs| && p in recs[i].props && forall j :: 0 <= j < i ==> p !in recs[j].props
    ensures var u := Union(AfterMutation(recs, CancelP(p), now), later); p in u && u[p] == recs[i].props[p]
  {
    var rs := AfterMutation(recs, CancelP(p), now);
    forall j | 0 <= j < |recs| ensures HasProp(rs[j], p, later) <==> p in recs[j].props {
      MutationSets(recs[j], CancelP(p), now, later);
    }
    MutationSets(recs[i], CancelP(p), now, later);
    UnionHas(rs, p, later);
  }

  // ---------------------------------------------------------------------------
  // The object

  /** The records behind the entries. */
  function Recs(entries: seq<OpenEntry>): (rs: seq<Rec>)
    reads entries
    ensures |rs| == |entries| && forall i :: 0 <= i < |rs| ==> rs[i] == entries[i].rec
  {
    seq(|entries|, i requires 0 <= i < |entries| reads entries => entries[i].rec)
  }

  ghost predicate AllDistinct(entries: seq<OpenEntry>) {
    forall i, j :: 0 <= i < j < |entries| ==> entries[i] != entries[j]
  }

  /** The answers of reads made at one instant. */
  function Answers(recs: seq<Rec>, call: Call, now: int): (a: seq<Answer>)
    ensures |a| == |recs| && forall i :: 0 <= i < |a| ==> a[i] == CallOn(recs[i], call, now).0
  {
    seq(|recs|, i requires 0 <= i < |recs| => CallOn(recs[i], call, now).0)
  }

  class VirtualEntry {
    const entries: seq<OpenEntry>

    constructor (es: seq<OpenEntry>)
      ensures entries == es
    {
      entries := es;
    }

    /** What the pool runs: one call on one entry. */
    method Invoke(e: OpenEntry, call: Call, now: int) returns (answer: Answer)
      modifies if call.MutateCall? then {e} else {}
      ensures (answer, e.rec) == CallOn(old(e.rec), call, now)
    {
      match call {
        case HasCall(p) => var has := e.HasProperty(p, now); answer := HasIs(has);
        case PropertyCall(p) => var value := e.Property(p, now); answer := PropertyIs(value);
        case PropertiesCall => var props := e.AllProperties(now); answer := PropertiesAre(props);
        case NamesCall => var props := e.AllProperties(now); answer := NamesAre(props.Keys);
        case LinksCall => answer := LinksAre(e.rec.children.Keys);
        case MutateCall(m) =>
          var status := InvokeMutation(e, m, now);
          answer := StatusIs(status);
      }
    }

    method InvokeMutation(e: OpenEntry, m: Mutation, now: int) returns (status: Status)
      modifies e
      ensures status == MutationStatus(old(e.rec), m, now) && e.rec == Mutated(old(e.rec), m, now)
    {
      match m {
        case SetP(p, value) => status := e.SetProperty(p, value, now);
        case RemoveP(p) => status := e.RemoveProperty(p, now);
        case ExpireP(p, ms) => status := e.ExpireProperty(p, ms, now);
        case CancelP(p) => status := e.CancelPropertyExpiration(p, now);
      }
    }

    /** The calls run in the order of the schedule, each filling in its own future. */
    method RunCalls(call: Call, now: int, schedule: seq<nat>) returns (futures: seq<Option<Answer>>)
      requires AllDistinct(entries) && IsSchedule(schedule, |entries|)
      modifies if call.MutateCall? then entries else []
      ensures (futures, Recs(entries)) == Executed(old(Recs(entries)), call, seq(|entries|, _ => now), schedule)
    {
      hide CallOn;
      hide AllDistinct;
      ghost var recs, nows := Recs(entries), seq(|entries|, _ => now);
      futures := seq(|entries|, _ => None);
      for k := 0 to |schedule|
        invariant |futures| == |entries|
        invariant (futures, Recs(entries)) == Executed(recs, call, nows, schedule[..k])
      {
        var i := schedule[k];
        ghost var before := Recs(entries);
        OthersDiffer(entries, i);
        var answer := Invoke(entries[i], call, now);
        futures := futures[i := Some(answer)];
        OneRecordChanged(entries, before, i);
        ExecutedNext(recs, call, nows, schedule[..k], i);
        assert schedule[..k + 1] == schedule[..k] + [i];
      }
      assert schedule[..|schedule|] == schedule;
    }

    /** The calls run in any order, and the results are collected in the order of the entries. */
    method ForEachEntry(call: Call, now: int, schedule: seq<nat>) returns (results: seq<Answer>)
      requires AllDistinct(entries) && IsSchedule(schedule, |entries|)
      modifies if call.MutateCall? then entries else []
      ensures results == Answers(old(Recs(entries)), call, now)
      ensures Recs(entries) == Left(old(Recs(entries)), call, now)
    {
      hide CallOn;
      hide Executed;
      hide AllDistinct;
      ghost var recs, nows := Recs(entries), seq(|entries|, _ => now);
      var futures := RunCalls(call, now, schedule);
      AnyScheduleSameResults(recs, call, nows, schedule);
      hide IsSchedule;
      results := [];
      for i := 0 to |entries|
        invariant |results| == i && forall j :: 0 <= j < i ==> results[j] == CallOn(recs[j], call, now).0
      {
        results := results + [futures[i].value];
      }
    }

    /** any_of over the entries' answers. */
    method HasProperty(prop: Bytes, now: int, schedule: seq<nat>) returns (has: bool)
      requires AllDistinct(entries) && IsSchedule(schedule, |entries|)
      ensures has == (prop in Union(Recs(entries), now))
    {
      var results := ForEachEntry(HasCall(prop), now, schedule);
      ghost var recs := Recs(entries);
      UnionHas(recs, prop, now);
      for i := 0 to |results|
        invariant forall j :: 0 <= j < i ==> !HasProp(recs[j], prop, now)
      {
        if results[i].has {
          return true;
        }
      }
      has := false;
    }

    /** The first entry, in order of priority, that has the property. */
    method Property(prop: Bytes, now: int, schedule: seq<nat>) returns (value: Option<Properties.Property>)
      requires AllDistinct(entries) && IsSchedule(schedule, |entries|)
      ensures value == if prop in Union(Recs(entries), now) then Some(Union(Recs(entries), now)[prop]) else None
    {
      var results := ForEachEntry(PropertyCall(prop), now, schedule);
      ghost var recs := Recs(entries);
      UnionHas(recs, prop, now);
      for i := 0 to |results|
        invariant forall j :: 0 <= j < i ==> !HasProp(recs[j], prop, now)
      {
        if results[i].value.Some? {
          return results[i].value;
        }
      }
      value := None;
    }

    /** Properties are inserted entry by entry; what is already there stays. */
    method AllProperties(now: int, schedule: seq<nat>) returns (props: map<Bytes, Properties.Property>)
      requires AllDistinct(entries) && IsSchedule(schedule, |entries|)
      ensures props == Union(Recs(entries), now)
    {
      var results := ForEachEntry(PropertiesCall, now, schedule);
      ghost var recs := Recs(entries);
      hide VisibleProps;
      props := map[];
      for i := 0 to |results|
        invariant props == Union(recs[..i], now)
      {
        UnionLast(recs[..i], recs[i], now);
        assert recs[..i + 1] == recs[..i] + [recs[i]];
        props := results[i].props + props;
      }
      assert recs[..|recs|] == recs;
    }

    method PropertiesNames(now: int, schedule: seq<nat>) returns (names: set<Bytes>)
      requires AllDistinct(entries) && IsSchedule(schedule, |entries|)
      ensures names == Union(Recs(entries), now).Keys
    {
      var results := ForEachEntry(NamesCall, now, schedule);
      ghost var recs := Recs(entries);
      hide VisibleProps;
      names := {};
      for i := 0 to |results|
        invariant names == Union(recs[..i], now).Keys
      {
        UnionLast(recs[..i], recs[i], now);
        assert recs[..i + 1] == recs[..i] + [recs[i]];
        names := names + results[i].names;
      }
      assert recs[..|recs|] == recs;
    }

    method Links(now: int, schedule: seq<nat>) returns (links: set<Bytes>)
      requires AllDistinct(entries) && IsSchedule(schedule, |entries|)
      ensures forall n :: n in links <==> exists i :: 0 <= i < |entries| && n in entries[i].rec.children
    {
      var results := ForEachEntry(LinksCall, now, schedule);
      ghost var recs := Recs(entries);
      links := {};
      for i := 0 to |results|
        invariant forall n :: n in links <==> exists j :: 0 <= j < i && n in recs[j].children
      {
        links := links + results[i].links;
      }
    }

    method SetProperty(prop: Bytes, value: Properties.Property, now: int, schedule: seq<nat>) returns (status: Status)
      requires AllDistinct(entries) && IsSchedule(schedule, |entries|)
      modifies entries
      ensures status == Ok && Recs(entries) == AfterMutation(old(Recs(entries)), SetP(prop, value), now)
    {
      var results := ForEachEntry(MutateCall(SetP(prop, value)), now, schedule);
      for i := 0 to |results|
      {
        if !results[i].status.Ok? {
          return InvalidOperation;
        }
      }
      status := Ok;
    }

    /** Removal, expiration and its cancelling succeed when any entry's does. */
    method MutateAny(m: Mutation, now: int, schedule: seq<nat>) returns (status: Status)
      requires AllDistinct(entries) && IsSchedule(schedule, |entries|)
      modifies entries
      ensures Recs(entries) == AfterMutation(old(Recs(entries)), m, now)
      ensures status == if exists r <- old(Recs(entries)) :: MutationStatus(r, m, now).Ok? then Ok else InvalidArgument
    {
      ghost var recs := Recs(entries);
      var results := ForEachEntry(MutateCall(m), now, schedule);
      assert forall i :: 0 <= i < |recs| ==> recs[i] in recs;
      for i := 0 to |results|
        invariant forall j :: 0 <= j < i ==> !MutationStatus(recs[j], m, now).Ok?
      {
        if results[i].status.Ok? {
          return Ok;
        }
      }
      status := InvalidArgument;
    }

    method RemoveProperty(prop: Bytes, now: int, schedule: seq<nat>) returns (status: Status)
      requires AllDistinct(entries) && IsSchedule(schedule, |entries|)
      modifies entries
      ensures Recs(entries) == AfterMutation(old(Recs(entries)), RemoveP(prop), now)
      ensures status == if exists r <- old(Recs(entries)) :: prop in r.props then Ok else InvalidArgument
    {
      status := MutateAny(RemoveP(prop), now, schedule);
    }

    method ExpireProperty(prop: Bytes, ms: int, now: int, schedule: seq<nat>) returns (status: Status)
      requires AllDistinct(entries) && IsSchedule(schedule, |entries|)
      modifies entries
      ensures Recs(entries) == AfterMutation(old(Recs(entries)), ExpireP(prop, ms), now)
      ensures status == if prop in Union(old(Recs(entries)), now) then Ok else InvalidArgument
    {
      UnionHas(Recs(entries), prop, now);
      assert forall i :: 0 <= i < |entries| ==> Recs(entries)[i] in Recs(entries);
      status := MutateAny(ExpireP(prop, ms), now, schedule);
    }

    method CancelPropertyExpiration(prop: Bytes, now: int, schedule: seq<nat>) returns (status: Status)
      requires AllDistinct(entries) && IsSchedule(schedule, |entries|)
      modifies entries
      ensures Recs(entries) == AfterMutation(old(Recs(entries)), CancelP(prop), now)
      ensures status == if entries != [] then Ok else InvalidArgument
    {
      ghost var recs := Recs(entries);
      assert recs != [] ==> recs[0] in recs && MutationStatus(recs[0], CancelP(prop), now).Ok?;
      status := MutateAny(CancelP(prop), now, schedule);
    }
  }

  lemma OthersDiffer(entries: seq<OpenEntry>, i: nat)
    requires AllDistinct(entries) && i < |entries|
    ensures forall j :: 0 <= j < |entries| && j != i ==> entries[j] != entries[i]
  {
  }

  lemma OneRecordChanged(entries: seq<OpenEntry>, before: seq<Rec>, i: nat)
    requires |before| == |entries| && i < |entries|
    requires forall j :: 0 <= j < |entries| && j != i ==> entries[j].rec == before[j]
    ensures Recs(entries) == before[i := entries[i].rec]
  {
  }

  lemma ExecutedNext(recs: seq<Rec>, call: Call, nows: seq<int>, done: seq<nat>, i: nat)
    requires |nows| == |recs| && i < |recs| && forall k :: 0 <= k < |done| ==> done[k] < |recs|
    ensures var (futures, rs) := Executed(recs, call, nows, done);
            Executed(recs, call, nows, done + [i])
            == (futures[i := Some(CallOn(rs[i], call, nows[i]).0)], rs[i := CallOn(rs[i], call, nows[i]).1])
  {
  }

  /** The records that one call on each leaves. */
  function Left(recs: seq<Rec>, call: Call, now: int): (rs: seq<Rec>)
    ensures |rs| == |recs| && forall i :: 0 <= i < |rs| ==> rs[i] == CallOn(recs[i], call, now).1
  {
    seq(|recs|, i requires 0 <= i < |recs| => CallOn(recs[i], call, now).1)
  }
}
