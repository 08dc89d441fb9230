// Records: what an entry consists of, its operations, and its byte form
// (lib/ondisk/Record.hpp).

module Records {
  import opened Wrappers
  import opened Serialization
  import opened Properties

  const INVALID_HANDLE: nat := 0
  const ROOT_HANDLE: nat := 1

  datatype Rec = Rec(
    key: nat,
    parent: nat,
    name: Bytes,
    props: map<Bytes, Property>,
    children: map<Bytes, nat>,
    expiry: map<Bytes, int>)

  function NewRec(handle: nat, name: Bytes): Rec {
    Rec(handle, INVALID_HANDLE, name, map[], map[], map[])
  }

  /** Numbers in the ranges of their C++ types. */
  predicate TypedRec(r: Rec) {
    && r.key < TWO64
    && r.parent < TWO64
    && (forall p <- r.props :: Typed(r.props[p]))
    && (forall c <- r.children :: r.children[c] < TWO64)
    && (forall p <- r.expiry :: -(TWO64 as int) <= 2 * r.expiry[p] < TWO64)
  }

  /** Names and handles of children determine each other. */
  ghost predicate Bijective(children: map<Bytes, nat>) {
    forall a, b :: a in children && b in children && children[a] == children[b] ==> a == b
  }

  // ---------------------------------------------------------------------------
  // Properties and their expiration

  predicate Expired(r: Rec, p: Bytes, now: int) {
    p in r.expiry && r.expiry[p] <= now
  }

  function ExpiredProps(r: Rec, now: int): set<Bytes> {
    set p | p in r.expiry && Expired(r, p, now)
  }

  /** The record without the properties expired by `now`. */
  function Cleanup(r: Rec, now: int): Rec {
    r.(props := r.props - ExpiredProps(r, now), expiry := r.expiry - ExpiredProps(r, now))
  }

  predicate HasProp(r: Rec, p: Bytes, now: int) {
    !Expired(r, p, now) && p in r.props
  }

  function GetProp(r: Rec, p: Bytes, now: int): Option<Property> {
    if HasProp(r, p, now) then Some(r.props[p]) else None
  }

  function VisibleProps(r: Rec, now: int): map<Bytes, Property> {
    map p | p in r.props && !Expired(r, p, now) :: r.props[p]
  }

  function CancelExpiry(r: Rec, p: Bytes): Rec {
    r.(expiry := r.expiry - {p})
  }

  function SetProp(r: Rec, p: Bytes, v: Property): Rec {
    CancelExpiry(r, p).(props := r.props[p := v])
  }

  function RemoveProp(r: Rec, p: Bytes): Rec {
    CancelExpiry(r, p).(props := r.props - {p})
  }

  /** Expiration `ms` milliseconds from `now`; refused for a property that is not visible. */
  function ExpireProp(r: Rec, p: Bytes, now: int, ms: int): Rec {
    if HasProp(r, p, now) then r.(expiry := r.expiry[p := now + ms]) else r
  }

  /** Insertion into the children container, unique by name and by handle. */
  predicate CanAdd(children: map<Bytes, nat>, name: Bytes, handle: nat) {
    name !in children && forall c <- children :: children[c] != handle
  }

  /** The children without the one that has this handle. */
  function WithoutHandle(children: map<Bytes, nat>, handle: nat): map<Bytes, nat> {
    map c | c in children && children[c] != handle :: children[c]
  }

  /** Exactly what has passed goes: the property with its expiration; everything else stays. */
  lemma CleanupKeeps(r: Rec, p: Bytes, now: int)
    ensures p in Cleanup(r, now).props <==> HasProp(r, p, now)
    ensures HasProp(r, p, now) ==> Cleanup(r, now).props[p] == r.props[p]
    ensures p in Cleanup(r, now).expiry <==> p in r.expiry && r.expiry[p] > now
    ensures p in Cleanup(r, now).expiry ==> Cleanup(r, now).expiry[p] == r.expiry[p]
    ensures Cleanup(r, now) == r.(props := Cleanup(r, now).props, expiry := Cleanup(r, now).expiry)
  {
  }

  lemma CleanupTwice(r: Rec, t1: int, t2: int)
    requires t1 <= t2
    ensures Cleanup(Cleanup(r, t1), t2) == Cleanup(r, t2)
  {
  }

  /** Cleaning up early is invisible to every later read. */
  lemma CleanupIsTransparent(r: Rec, p: Bytes, t1: int, t2: int)
    requires t1 <= t2
    ensures GetProp(Cleanup(r, t1), p, t2) == GetProp(r, p, t2)
    ensures VisibleProps(Cleanup(r, t1), t2) == VisibleProps(r, t2)
    ensures VisibleProps(r, t2) == Cleanup(r, t2).props
  {
  }

  /**
   * The one mutation that tells an early cleanup apart: cancelling an expiration that has
   * passed brings the property back, unless a cleanup came first.
   */
  lemma CancelSeesCleanup(r: Rec, p: Bytes, now: int)
    ensures Cleanup(CancelExpiry(Cleanup(r, now), p), now) == Cleanup(CancelExpiry(r, p), now)
            <==> !(Expired(r, p, now) && p in r.props)
  {
    var lhs := Cleanup(CancelExpiry(Cleanup(r, now), p), now);
    var rhs := Cleanup(CancelExpiry(r, p), now);
    if Expired(r, p, now) && p in r.props {
      assert p in rhs.props && p !in lhs.props;
    } else {
      assert lhs.props == rhs.props;
      assert lhs.expiry == rhs.expiry;
    }
  }

  // Every other mutation gives the same cleaned-up record from a record and from its cleanup.

  lemma SetIgnoresCleanup(r: Rec, p: Bytes, v: Property, t1: int, t2: int)
    requires t1 <= t2
    ensures Cleanup(SetProp(Cleanup(r, t1), p, v), t2) == Cleanup(SetProp(r, p, v), t2)
  {
    var a, b := SetProp(Cleanup(r, t1), p, v), SetProp(r, p, v);
    assert Cleanup(a, t2).props == Cleanup(b, t2).props;
    assert Cleanup(a, t2).expiry == Cleanup(b, t2).expiry;
  }

  lemma RemoveIgnoresCleanup(r: Rec, p: Bytes, t1: int, t2: int)
    requires t1 <= t2
    ensures Cleanup(RemoveProp(Cleanup(r, t1), p), t2) == Cleanup(RemoveProp(r, p), t2)
  {
    var a, b := RemoveProp(Cleanup(r, t1), p), RemoveProp(r, p);
    assert Cleanup(a, t2).props == Cleanup(b, t2).props;
    assert Cleanup(a, t2).expiry == Cleanup(b, t2).expiry;
  }

  lemma ExpireIgnoresCleanup(r: Rec, p: Bytes, ms: int, t1: int, t2: int)
    requires t1 <= t2
    ensures Cleanup(ExpireProp(Cleanup(r, t1), p, t2, ms), t2) == Cleanup(ExpireProp(r, p, t2, ms), t2)
  {
    var c := Cleanup(r, t1);
    if HasProp(r, p, t2) {
      var a, b := ExpireProp(c, p, t2, ms), ExpireProp(r, p, t2, ms);
      assert Cleanup(a, t2).props == Cleanup(b, t2).props;
      assert Cleanup(a, t2).expiry == Cleanup(b, t2).expiry;
    } else {
      CleanupTwice(r, t1, t2);
    }
  }

  // What the reads say after each mutation, at any later time.

  lemma ReadsAfterSet(r: Rec, p: Bytes, v: Property, q: Bytes, later: int)
    ensures GetProp(SetProp(r, p, v), q, later) == if q == p then Some(v) else GetProp(r, q, later)
  {
  }

  lemma ReadsAfterRemove(r: Rec, p: Bytes, q: Bytes, later: int)
    ensures GetProp(RemoveProp(r, p), q, later) == if q == p then None else GetProp(r, q, later)
  {
  }

  /** A visible property stays until its new time; one that is not is left as it is. */
  lemma ReadsAfterExpire(r: Rec, p: Bytes, now: int, ms: int, q: Bytes, later: int)
    ensures GetProp(ExpireProp(r, p, now, ms), q, later)
            == if q == p && HasProp(r, p, now) then (if later < now + ms then Some(r.props[p]) else None)
               else GetProp(r, q, later)
  {
  }

  /** The property has its value at every time from then on, even when it had expired. */
  lemma ReadsAfterCancel(r: Rec, p: Bytes, q: Bytes, later: int)
    ensures GetProp(CancelExpiry(r, p), q, later)
            == if q == p then (if p in r.props then Some(r.props[p]) else None) else GetProp(r, q, later)
  {
  }

  // ---------------------------------------------------------------------------
  // Byte form. Every container goes out as a count followed by (name, value) pairs.

  function PrintPairs<V>(ps: seq<(Bytes, V)>, print_: V -> Bytes): Bytes {
    if ps == [] then [] else PrintString(ps[0].0) + print_(ps[0].1) + PrintPairs(ps[1..], print_)
  }

  function PrintSection<V>(ps: seq<(Bytes, V)>, print_: V -> Bytes): Bytes {
    PrintUInt(|ps|, 8) + PrintPairs(ps, print_)
  }

  function ParsePair<V>(b: Bytes, parse: Bytes -> Parsed<V>): Parsed<(Bytes, V)> {
    var (k, b1) :- ParseString(b);
    var (v, b2) :- parse(b1);
    Got((k, v), b2)
  }

  function ParsePairs<V>(n: nat, b: Bytes, parse: Bytes -> Parsed<V>): Parsed<seq<(Bytes, V)>> {
    if n == 0 then Got([], b)
    else
      var (kv, b1) :- ParsePair(b, parse);
      var (ps, b2) :- ParsePairs(n - 1, b1, parse);
      Got([kv] + ps, b2)
  }

  function ParseSection<V>(b: Bytes, parse: Bytes -> Parsed<V>): Parsed<seq<(Bytes, V)>> {
    var (n, b1) :- ParseUInt(b, 8);
    ParsePairs(n, b1, parse)
  }

  function PrintHandle(h: nat): Bytes {
    PrintUInt(h, 8)
  }

  function ParseHandle(b: Bytes): Parsed<nat> {
    ParseUInt(b, 8)
  }

  function PrintTime(t: int): Bytes {
    PrintUInt(ToUnsigned(t, TWO64), 8)
  }

  function ParseTime(b: Bytes): Parsed<int> {
    var (n, rest) :- ParseUInt(b, 8);
    Got(ToSigned(n, TWO64), rest)
  }

  /** The order in which a container is walked: each of its keys once. */
  ghost predicate IsOrder<K(!new), V>(order: seq<K>, m: map<K, V>) {
    && (forall i, j :: 0 <= i < j < |order| ==> order[i] != order[j])
    && (forall k :: k in order <==> k in m)
  }

  /** The keys of a container walked so far, each once; `todo` are the others. */
  ghost predicate WalkedSoFar<K(!new), V>(order: seq<K>, m: map<K, V>, todo: set<K>) {
    && todo <= m.Keys
    && (forall i, j :: 0 <= i < j < |order| ==> order[i] != order[j])
    && (forall x :: x in order <==> x in m && x !in todo)
  }

  lemma WalkStep<K(!new), V>(order: seq<K>, m: map<K, V>, todo: set<K>, k: K)
    requires WalkedSoFar(order, m, todo) && k in todo
    ensures WalkedSoFar(order + [k], m, todo - {k})
  {
  }

  /** A walk that stopped early is the beginning of a complete one. */
  lemma {:induction false} CompleteWalk<K(!new), V>(order: seq<K>, m: map<K, V>, todo: set<K>) returns (full: seq<K>)
    requires WalkedSoFar(order, m, todo)
    ensures IsOrder(full, m) && order <= full
    decreases |todo|
  {
    if todo == {} {
      full := order;
    } else {
      var k :| k in todo;
      WalkStep(order, m, todo, k);
      full := CompleteWalk(order + [k], m, todo - {k});
    }
  }

  lemma {:induction false} OrderLength<K(!new), V>(order: seq<K>, m: map<K, V>)
    requires IsOrder(order, m)
    ensures |order| == |m|
  {
    if order == [] {
      assert m == map[];
    } else {
      var last := |order| - 1;
      var shorter, k0 := order[..last], order[last];
      assert order == shorter + [k0];
      forall k | k in shorter ensures k in m - {k0} {
        var i :| 0 <= i < last && order[i] == k;
      }
      OrderLength(shorter, m - {k0});
      assert m.Keys == (m - {k0}).Keys + {k0};
    }
  }

  function PairsOf<V>(m: map<Bytes, V>, order: seq<Bytes>): (ps: seq<(Bytes, V)>)
    requires forall k :: k in order ==> k in m
  {
    seq(|order|, i requires 0 <= i < |order| => assert order[i] in order; (order[i], m[order[i]]))
  }

  /** Properties are walked in hash order, children and expirations by name; any order is allowed here. */
  datatype Orders = Orders(props: seq<Bytes>, children: seq<Bytes>, expiry: seq<Bytes>)

  ghost predicate AreOrders(o: Orders, r: Rec) {
    IsOrder(o.props, r.props) && IsOrder(o.children, r.children) && IsOrder(o.expiry, r.expiry)
  }

  function PrintHead(r: Rec): Bytes {
    PrintUInt(r.key, 8) + PrintUInt(r.parent, 8) + PrintString(r.name)
  }

  function PrintSections(props: seq<(Bytes, Property)>, children: seq<(Bytes, nat)>, expiry: seq<(Bytes, int)>): Bytes {
    PrintSection(props, PrintProperty) + PrintSection(children, PrintHandle) + PrintSection(expiry, PrintTime)
  }

  ghost function PrintBody(r: Rec, o: Orders): Bytes
    requires AreOrders(o, r)
  {
    PrintSections(PairsOf(r.props, o.props), PairsOf<nat>(r.children, o.children), PairsOf(r.expiry, o.expiry))
  }

  ghost function PrintRec(r: Rec, o: Orders): Bytes
    requires AreOrders(o, r)
  {
    PrintHead(r) + PrintBody(r, o)
  }

  /** Later pairs overwrite earlier ones. */
  function Assign<V>(ps: seq<(Bytes, V)>, m: map<Bytes, V>): map<Bytes, V> {
    if ps == [] then m else Assign(ps[1..], m[ps[0].0 := ps[0].1])
  }

  /** addChild for each pair in turn; the flag says whether every one of them succeeded. */
  function AddAll(ps: seq<(Bytes, nat)>, m: map<Bytes, nat>, ok: bool): (map<Bytes, nat>, bool) {
    if ps == [] then (m, ok)
    else if CanAdd(m, ps[0].0, ps[0].1) then AddAll(ps[1..], m[ps[0].0 := ps[0].1], ok)
    else AddAll(ps[1..], m, false)
  }

  function ParseHead(b: Bytes): Parsed<Rec> {
    var (key, b1) :- ParseUInt(b, 8);
    var (parent, b2) :- ParseUInt(b1, 8);
    var (name, b3) :- ParseString(b2);
    Got(NewRec(key, name).(parent := parent), b3)
  }

  function ParseBody(b: Bytes, head: Rec): Parsed<(Rec, bool)> {
    var (props, b1) :- ParseSection(b, ParseProperty);
    var (children, b2) :- ParseSection(b1, ParseHandle);
    var (expiry, b3) :- ParseSection(b2, ParseTime);
    var (cs, ok) := AddAll(children, map[], true);
    Got((head.(props := Assign(props, map[]), children := cs, expiry := Assign(expiry, map[])), ok), b3)
  }

  /** The parser before its final cleanup: the record, and whether every addChild succeeded. */
  function ParseRaw(b: Bytes): Parsed<(Rec, bool)> {
    var (head, b1) :- ParseHead(b);
    ParseBody(b1, head)
  }

  function ParseRec(b: Bytes, now: int): Parsed<(Rec, bool)> {
    var (r, rest) :- ParseRaw(b);
    Got((Cleanup(r.0, now), r.1), rest)
  }

  /**
   * Key, parent, the length of the name and the name, at fixed places; then the three containers,
   * each behind its count.
   */
  lemma RecordLayout(r: Rec, o: Orders)
    requires AreOrders(o, r)
    ensures var b, n := PrintRec(r, o), |r.name|;
            && |b| >= 24 + n
            && b[..8] == PrintUInt(r.key, 8) && b[8..16] == PrintUInt(r.parent, 8)
            && b[16..24] == PrintUInt(n, 8) && b[24..24 + n] == r.name
            && b[24 + n..]
               == PrintUInt(|o.props|, 8) + PrintPairs(PairsOf(r.props, o.props), PrintProperty)
                  + (PrintUInt(|o.children|, 8) + PrintPairs(PairsOf<nat>(r.children, o.children), PrintHandle))
                  + (PrintUInt(|o.expiry|, 8) + PrintPairs(PairsOf(r.expiry, o.expiry), PrintTime))
  {
    assert |PairsOf(r.props, o.props)| == |o.props|;
    assert |PairsOf<nat>(r.children, o.children)| == |o.children|;
    assert |PairsOf(r.expiry, o.expiry)| == |o.expiry|;
    hide PrintUInt;
    hide PrintPairs;
    hide PairsOf;
    HeadLayout(r);
    var head := PrintHead(r);
    assert PrintRec(r, o) == head + PrintBody(r, o);
    assert PrintRec(r, o)[24 + |r.name|..] == PrintBody(r, o);
    hide PrintHead;
  }

  lemma HeadLayout(r: Rec)
    ensures var h, n := PrintHead(r), |r.name|;
            && |h| == 24 + n
            && h[..8] == PrintUInt(r.key, 8) && h[8..16] == PrintUInt(r.parent, 8)
            && h[16..24] == PrintUInt(n, 8) && h[24..] == r.name
  {
    hide PrintUInt;
  }

  /** One after the other, each pair as its name and its value. */
  lemma {:induction false} PairsLayout<V>(a: seq<(Bytes, V)>, name: Bytes, v: V, b: seq<(Bytes, V)>, print_: V -> Bytes)
    ensures PrintPairs(a + [(name, v)] + b, print_)
            == PrintPairs(a, print_) + (PrintUInt(|name|, 8) + name + print_(v)) + PrintPairs(b, print_)
  {
    if a == [] {
      assert ([] + [(name, v)] + b)[1..] == b;
    } else {
      assert (a + [(name, v)] + b)[1..] == a[1..] + [(name, v)] + b;
      PairsLayout(a[1..], name, v, b, print_);
    }
  }

  /** Handles and times in eight bytes, times in two's complement. */
  lemma ValuesLayout(h: nat, t: int)
    ensures PrintHandle(h) == PrintUInt(h, 8) && PrintTime(t) == PrintUInt(t % TWO64, 8)
  {
  }

  lemma {:induction false} ParsePrintPairs<V>(ps: seq<(Bytes, V)>, print_: V -> Bytes, parse: Bytes -> Parsed<V>,
      tail: Bytes)
    requires forall i :: 0 <= i < |ps| ==> |ps[i].0| < TWO64
    requires forall i, t :: 0 <= i < |ps| ==> parse(print_(ps[i].1) + t) == Got(ps[i].1, t)
    ensures ParsePairs(|ps|, PrintPairs(ps, print_) + tail, parse) == Got(ps, tail)
  {
    if ps == [] {
      assert PrintPairs(ps, print_) + tail == tail;
    } else {
      hide ParseString;
      hide PrintString;
      var more := PrintPairs(ps[1..], print_) + tail;
      var value := print_(ps[0].1);
      RegroupRight(PrintString(ps[0].0), value, PrintPairs(ps[1..], print_), tail);
      ParsePrintString(ps[0].0, value + more);
      assert parse(value + more) == Got(ps[0].1, more);
      ParsePrintPairs(ps[1..], print_, parse, tail);
      assert ps == [(ps[0].0, ps[0].1)] + ps[1..];
    }
  }

  lemma ParsePrintSection<V>(ps: seq<(Bytes, V)>, print_: V -> Bytes, parse: Bytes -> Parsed<V>, tail: Bytes)
    requires |ps| < TWO64
    requires forall i :: 0 <= i < |ps| ==> |ps[i].0| < TWO64
    requires forall i, t :: 0 <= i < |ps| ==> parse(print_(ps[i].1) + t) == Got(ps[i].1, t)
    ensures ParseSection(PrintSection(ps, print_) + tail, parse) == Got(ps, tail)
  {
    Pow256Values();
    ParsePrintUInt(|ps|, 8, PrintPairs(ps, print_) + tail);
    assert PrintSection(ps, print_) + tail == PrintUInt(|ps|, 8) + (PrintPairs(ps, print_) + tail);
    ParsePrintPairs(ps, print_, parse, tail);
  }

  lemma {:induction false} ParsePairsLonger<V>(n: nat, b: Bytes, parse: Bytes -> Parsed<V>, tail: Bytes)
    requires forall c, t :: parse(c).Got? ==> parse(c + t) == Longer(parse(c), t)
    requires ParsePairs(n, b, parse).Got?
    ensures ParsePairs(n, b + tail, parse) == Longer(ParsePairs(n, b, parse), tail)
  {
    if n > 0 {
      ParseStringLonger(b, tail);
      var b1 := ParseString(b).rest;
      assert parse(b1 + tail) == Longer(parse(b1), tail);
      ParsePairsLonger(n - 1, parse(b1).rest, parse, tail);
    }
  }

  lemma ParseSectionLonger<V>(b: Bytes, parse: Bytes -> Parsed<V>, tail: Bytes)
    requires forall c, t :: parse(c).Got? ==> parse(c + t) == Longer(parse(c), t)
    requires ParseSection(b, parse).Got?
    ensures ParseSection(b + tail, parse) == Longer(ParseSection(b, parse), tail)
  {
    ParseUIntLonger(b, 8, tail);
    ParsePairsLonger(ParseUInt(b, 8).value, ParseUInt(b, 8).rest, parse, tail);
  }

  lemma ParseHeadLonger(b: Bytes, tail: Bytes)
    requires ParseHead(b).Got?
    ensures ParseHead(b + tail) == Longer(ParseHead(b), tail)
  {
    ParseUIntLonger(b, 8, tail);
    var b1 := ParseUInt(b, 8).rest;
    ParseUIntLonger(b1, 8, tail);
    ParseStringLonger(ParseUInt(b1, 8).rest, tail);
  }

  lemma ParseBodyLonger(b: Bytes, head: Rec, tail: Bytes)
    requires ParseBody(b, head).Got?
    ensures ParseBody(b + tail, head) == Longer(ParseBody(b, head), tail)
  {
    ParsePropsLonger(b, tail);
    var b1 := ParseSection(b, ParseProperty).rest;
    ParseHandlesLonger(b1, tail);
    var b2 := ParseSection(b1, ParseHandle).rest;
    ParseTimesLonger(b2, tail);
  }

  lemma ParsePropsLonger(b: Bytes, tail: Bytes)
    requires ParseSection(b, ParseProperty).Got?
    ensures ParseSection(b + tail, ParseProperty) == Longer(ParseSection(b, ParseProperty), tail)
  {
    forall c, t | ParseProperty(c).Got? ensures ParseProperty(c + t) == Longer(ParseProperty(c), t) {
      ParsePropertyLonger(c, t);
    }
    ParseSectionLonger(b, ParseProperty, tail);
  }

  lemma ParseHandlesLonger(b: Bytes, tail: Bytes)
    requires ParseSection(b, ParseHandle).Got?
    ensures ParseSection(b + tail, ParseHandle) == Longer(ParseSection(b, ParseHandle), tail)
  {
    forall c, t | ParseHandle(c).Got? ensures ParseHandle(c + t) == Longer(ParseHandle(c), t) {
      ParseUIntLonger(c, 8, t);
    }
    ParseSectionLonger(b, ParseHandle, tail);
  }

  lemma ParseTimesLonger(b: Bytes, tail: Bytes)
    requires ParseSection(b, ParseTime).Got?
    ensures ParseSection(b + tail, ParseTime) == Longer(ParseSection(b, ParseTime), tail)
  {
    forall c, t | ParseTime(c).Got? ensures ParseTime(c + t) == Longer(ParseTime(c), t) {
      ParseUIntLonger(c, 8, t);
    }
    ParseSectionLonger(b, ParseTime, tail);
  }

  /** The record parser reads nothing beyond the record: bytes behind it change nothing. */
  lemma ParseRawLonger(b: Bytes, tail: Bytes)
    requires ParseRaw(b).Got?
    ensures ParseRaw(b + tail) == Longer(ParseRaw(b), tail)
  {
    ParseHeadLonger(b, tail);
    ParseBodyLonger(ParseHead(b).rest, ParseHead(b).value, tail);
  }

  /** Assigning the pairs of a map, in any order, rebuilds it. */
  lemma {:induction false} AssignPairs<V>(m: map<Bytes, V>, order: seq<Bytes>, acc: map<Bytes, V>)
    requires forall k :: k in order ==> k in m
    ensures Assign(PairsOf(m, order), acc) == acc + (map k | k in order :: m[k])
  {
    var ps := PairsOf(m, order);
    if order != [] {
      assert ps[1..] == PairsOf(m, order[1..]);
      AssignPairs(m, order[1..], acc[order[0] := m[order[0]]]);
    }
  }

  /** Of pairs with one name the last is kept; names that are not among them keep what they had. */
  lemma {:induction false} AssignKeepsLast<V>(ps: seq<(Bytes, V)>, m: map<Bytes, V>, i: nat)
    requires i < |ps| && forall j :: i < j < |ps| ==> ps[j].0 != ps[i].0
    ensures ps[i].0 in Assign(ps, m) && Assign(ps, m)[ps[i].0] == ps[i].1
    decreases |ps|
  {
    if i > 0 {
      assert forall j :: 0 <= j < |ps[1..]| ==> ps[1..][j] == ps[j + 1];
      AssignKeepsLast(ps[1..], m[ps[0].0 := ps[0].1], i - 1);
    } else {
      assert forall j :: 0 <= j < |ps[1..]| ==> ps[1..][j] == ps[j + 1];
      AssignKeepsOther(ps[1..], m[ps[0].0 := ps[0].1], ps[0].0);
    }
  }

  lemma {:induction false} AssignKeepsOther<V>(ps: seq<(Bytes, V)>, m: map<Bytes, V>, k: Bytes)
    requires forall j :: 0 <= j < |ps| ==> ps[j].0 != k
    ensures k in Assign(ps, m) <==> k in m
    ensures k in m ==> Assign(ps, m)[k] == m[k]
    decreases |ps|
  {
    if ps != [] {
      assert forall j :: 0 <= j < |ps[1..]| ==> ps[1..][j] == ps[j + 1];
      AssignKeepsOther(ps[1..], m[ps[0].0 := ps[0].1], k);
    }
  }

  /** Every name and every handle is new, to what is there and to each other. */
  predicate AllNew(ps: seq<(Bytes, nat)>, m: map<Bytes, nat>) {
    && (forall i :: 0 <= i < |ps| ==> CanAdd(m, ps[i].0, ps[i].1))
    && (forall i, j :: 0 <= i < j < |ps| ==> ps[i].0 != ps[j].0 && ps[i].1 != ps[j].1)
  }

  lemma AllNewTail(ps: seq<(Bytes, nat)>, m: map<Bytes, nat>)
    requires ps != [] && CanAdd(m, ps[0].0, ps[0].1)
    ensures AllNew(ps, m) <==> AllNew(ps[1..], m[ps[0].0 := ps[0].1])
  {
    var m1, more := m[ps[0].0 := ps[0].1], ps[1..];
    assert forall j :: 0 <= j < |more| ==> more[j] == ps[j + 1];
    assert forall c <- m :: c in m1 && m1[c] == m[c];
    if AllNew(more, m1) {
      forall i, j | 0 <= i < j < |ps| ensures ps[i].0 != ps[j].0 && ps[i].1 != ps[j].1 {
        if i == 0 {
          assert CanAdd(m1, more[j - 1].0, more[j - 1].1);
          assert m1[ps[0].0] == ps[0].1;
        } else {
          assert more[i - 1].0 != more[j - 1].0;
        }
      }
      forall i | 0 <= i < |ps| ensures CanAdd(m, ps[i].0, ps[i].1) {
        if i > 0 {
          assert CanAdd(m1, more[i - 1].0, more[i - 1].1);
        }
      }
    }
  }

  /**
   * Children as they are read: what is there stays, names and handles stay in bijection, a pair
   * whose name or handle is taken is left out, and the flag says exactly whether none was.
   */
  lemma {:induction false} AddAllExact(ps: seq<(Bytes, nat)>, m: map<Bytes, nat>, ok: bool)
    requires Bijective(m)
    ensures var (cs, all) := AddAll(ps, m, ok);
            && Bijective(cs) && (forall n <- m :: n in cs && cs[n] == m[n])
            && (forall n <- cs :: n in m || (n, cs[n]) in ps)
            && (forall i :: 0 <= i < |ps| ==> !CanAdd(cs, ps[i].0, ps[i].1))
            && (all <==> ok && AllNew(ps, m))
    decreases |ps|
  {
    if ps != [] {
      var more := ps[1..];
      assert forall j :: 0 <= j < |more| ==> more[j] == ps[j + 1];
      if CanAdd(m, ps[0].0, ps[0].1) {
        AllNewTail(ps, m);
        AddAllExact(more, m[ps[0].0 := ps[0].1], ok);
      } else {
        AddAllExact(more, m, false);
      }
    }
  }

  lemma CanAddNext(m: map<Bytes, nat>, acc: map<Bytes, nat>, name: Bytes)
    requires Bijective(m) && name in m && name !in acc
    requires forall k <- acc :: k in m && acc[k] == m[k]
    ensures CanAdd(acc, name, m[name])
  {
  }

  /** Adding the children of a bijection, in any order, never meets a duplicate. */
  lemma {:induction false} AddAllPairs(m: map<Bytes, nat>, order: seq<Bytes>, acc: map<Bytes, nat>)
    requires Bijective(m)
    requires forall i, j :: 0 <= i < j < |order| ==> order[i] != order[j]
    requires forall k :: k in order ==> k in m && k !in acc
    requires forall k <- acc :: k in m && acc[k] == m[k]
    ensures AddAll(PairsOf<nat>(m, order), acc, true) == (Assign<nat>(PairsOf<nat>(m, order), acc), true)
  {
    if order != [] {
      var name, rest := order[0], order[1..];
      CanAddNext(m, acc, name);
      assert PairsOf<nat>(m, order)[1..] == PairsOf<nat>(m, rest);
      AddAllPairs(m, rest, acc[name := m[name]]);
    }
  }

  /** What was printed bounds the length of everything in it. */
  lemma {:induction false} PairsBound<V>(ps: seq<(Bytes, V)>, print_: V -> Bytes)
    ensures |ps| <= |PrintPairs(ps, print_)|
    ensures forall i :: 0 <= i < |ps| ==>
              |ps[i].0| <= |PrintPairs(ps, print_)| && |print_(ps[i].1)| <= |PrintPairs(ps, print_)|
  {
    if ps != [] {
      PairsBound(ps[1..], print_);
      forall i | 0 <= i < |ps|
        ensures |ps[i].0| <= |PrintPairs(ps, print_)| && |print_(ps[i].1)| <= |PrintPairs(ps, print_)|
      {
        if i > 0 {
          assert ps[i] == ps[1..][i - 1];
        }
      }
    }
  }

  lemma PropertyFitsWhenShort(p: Property)
    requires Typed(p) && |PrintProperty(p)| < TWO64
    ensures Fits(p)
  {
  }

  lemma ParsePrintTime(t: int, tail: Bytes)
    requires -(TWO64 as int) <= 2 * t < TWO64
    ensures ParseTime(PrintTime(t) + tail) == Got(t, tail)
  {
    Pow256Values();
    SignedRoundTrip(t, TWO64);
    ParsePrintUInt(ToUnsigned(t, TWO64), 8, tail);
  }

  // The three sections of a printed record, parsed back.

  lemma ParsePrintProps(ps: seq<(Bytes, Property)>, tail: Bytes)
    requires forall i :: 0 <= i < |ps| ==> Typed(ps[i].1)
    requires |PrintSection(ps, PrintProperty)| < TWO64
    ensures ParseSection(PrintSection(ps, PrintProperty) + tail, ParseProperty) == Got(ps, tail)
  {
    PairsBound(ps, PrintProperty);
    forall i, t | 0 <= i < |ps| ensures ParseProperty(PrintProperty(ps[i].1) + t) == Got(ps[i].1, t) {
      PropertyFitsWhenShort(ps[i].1);
      ParsePrintProperty(ps[i].1, t);
    }
    ParsePrintSection(ps, PrintProperty, ParseProperty, tail);
  }

  lemma ParsePrintHandles(ps: seq<(Bytes, nat)>, tail: Bytes)
    requires forall i :: 0 <= i < |ps| ==> ps[i].1 < TWO64
    requires |PrintSection(ps, PrintHandle)| < TWO64
    ensures ParseSection(PrintSection(ps, PrintHandle) + tail, ParseHandle) == Got(ps, tail)
  {
    PairsBound(ps, PrintHandle);
    Pow256Values();
    forall i, t | 0 <= i < |ps| ensures ParseHandle(PrintHandle(ps[i].1) + t) == Got(ps[i].1, t) {
      ParsePrintUInt(ps[i].1, 8, t);
    }
    ParsePrintSection(ps, PrintHandle, ParseHandle, tail);
  }

  lemma ParsePrintTimes(ps: seq<(Bytes, int)>, tail: Bytes)
    requires forall i :: 0 <= i < |ps| ==> -(TWO64 as int) <= 2 * ps[i].1 < TWO64
    requires |PrintSection(ps, PrintTime)| < TWO64
    ensures ParseSection(PrintSection(ps, PrintTime) + tail, ParseTime) == Got(ps, tail)
  {
    PairsBound(ps, PrintTime);
    forall i, t | 0 <= i < |ps| ensures ParseTime(PrintTime(ps[i].1) + t) == Got(ps[i].1, t) {
      ParsePrintTime(ps[i].1, t);
    }
    ParsePrintSection(ps, PrintTime, ParseTime, tail);
  }

  lemma ParsePrintHead(r: Rec, tail: Bytes)
    requires TypedRec(r) && |PrintHead(r)| < TWO64
    ensures ParseHead(PrintHead(r) + tail) == Got(NewRec(r.key, r.name).(parent := r.parent), tail)
  {
    Pow256Values();
    var t2 := PrintString(r.name) + tail;
    var t1 := PrintUInt(r.parent, 8) + t2;
    assert PrintHead(r) + tail == PrintUInt(r.key, 8) + t1;
    ParsePrintUInt(r.key, 8, t1);
    ParsePrintUInt(r.parent, 8, t2);
    ParsePrintString(r.name, tail);
  }

  lemma TypedPairs(r: Rec, o: Orders)
    requires TypedRec(r) && AreOrders(o, r)
    ensures var ps := PairsOf(r.props, o.props); forall i :: 0 <= i < |ps| ==> Typed(ps[i].1)
    ensures var ps := PairsOf<nat>(r.children, o.children); forall i :: 0 <= i < |ps| ==> ps[i].1 < TWO64
    ensures var ps := PairsOf(r.expiry, o.expiry); forall i :: 0 <= i < |ps| ==> -(TWO64 as int) <= 2 * ps[i].1 < TWO64
  {
  }

  lemma SectionsLayout(props: seq<(Bytes, Property)>, children: seq<(Bytes, nat)>, expiry: seq<(Bytes, int)>,
      tail: Bytes)
    ensures PrintSections(props, children, expiry) + tail
            == PrintSection(props, PrintProperty)
               + (PrintSection(children, PrintHandle) + (PrintSection(expiry, PrintTime) + tail))
    ensures |PrintSection(props, PrintProperty)| <= |PrintSections(props, children, expiry)|
    ensures |PrintSection(children, PrintHandle)| <= |PrintSections(props, children, expiry)|
    ensures |PrintSection(expiry, PrintTime)| <= |PrintSections(props, children, expiry)|
  {
  }

  lemma SectionsParse(props: seq<(Bytes, Property)>, children: seq<(Bytes, nat)>, expiry: seq<(Bytes, int)>,
                      head: Rec, tail: Bytes)
    requires forall i :: 0 <= i < |props| ==> Typed(props[i].1)
    requires forall i :: 0 <= i < |children| ==> children[i].1 < TWO64
    requires forall i :: 0 <= i < |expiry| ==> -(TWO64 as int) <= 2 * expiry[i].1 < TWO64
    requires |PrintSections(props, children, expiry)| < TWO64
    ensures ParseBody(PrintSections(props, children, expiry) + tail, head)
            == Got((head.(props := Assign(props, map[]), children := AddAll(children, map[], true).0,
                          expiry := Assign(expiry, map[])), AddAll(children, map[], true).1), tail)
  {
    var t2 := PrintSection(expiry, PrintTime) + tail;
    var t1 := PrintSection(children, PrintHandle) + t2;
    var whole := PrintSection(props, PrintProperty) + t1;
    SectionsLayout(props, children, expiry, tail);
    ParsePrintProps(props, t1);
    ParsePrintHandles(children, t2);
    ParsePrintTimes(expiry, tail);
  }

  lemma ParsePrintBody(r: Rec, o: Orders, head: Rec, tail: Bytes)
    requires TypedRec(r) && Bijective(r.children) && AreOrders(o, r) && |PrintRec(r, o)| < TWO64
    ensures ParseBody(PrintBody(r, o) + tail, head)
            == Got((head.(props := r.props, children := r.children, expiry := r.expiry), true), tail)
  {
    TypedPairs(r, o);
    SectionsParse(PairsOf(r.props, o.props), PairsOf<nat>(r.children, o.children), PairsOf(r.expiry, o.expiry),
        head, tail);
    RebuildMap(r.props, o.props);
    RebuildChildren(r.children, o.children);
    RebuildMap(r.expiry, o.expiry);
  }

  lemma RebuildMap<V>(m: map<Bytes, V>, order: seq<Bytes>)
    requires IsOrder(order, m)
    ensures Assign(PairsOf(m, order), map[]) == m
  {
    AssignPairs(m, order, map[]);
    assert (map k | k in order :: m[k]) == m;
  }

  lemma RebuildChildren(m: map<Bytes, nat>, order: seq<Bytes>)
    requires Bijective(m) && IsOrder(order, m)
    ensures AddAll(PairsOf<nat>(m, order), map[], true) == (m, true)
  {
    AddAllPairs(m, order, map[]);
    RebuildMap<nat>(m, order);
  }

  /** Parsing what was printed gives the record back, succeeds in every addChild, and stops at the tail. */
  lemma ParsePrintRaw(r: Rec, o: Orders, tail: Bytes)
    requires TypedRec(r) && Bijective(r.children) && AreOrders(o, r) && |PrintRec(r, o)| < TWO64
    ensures ParseRaw(PrintRec(r, o) + tail) == Got((r, true), tail)
  {
    assert PrintRec(r, o) + tail == PrintHead(r) + (PrintBody(r, o) + tail);
    ParsePrintHead(r, PrintBody(r, o) + tail);
    ParsePrintBody(r, o, NewRec(r.key, r.name).(parent := r.parent), tail);
  }

  /**
   * Print at `t1` (the printer cleans up first), parse at `t2`: the record without what
   * expired by `t2`, and exactly the tail left over.
   */
  lemma RecordRoundTrip(r: Rec, o: Orders, tail: Bytes, t1: int, t2: int)
    requires TypedRec(r) && Bijective(r.children) && t1 <= t2
    requires AreOrders(o, Cleanup(r, t1)) && |PrintRec(Cleanup(r, t1), o)| < TWO64
    ensures ParseRec(PrintRec(Cleanup(r, t1), o) + tail, t2) == Got((Cleanup(r, t2), true), tail)
  {
    ParsePrintRaw(Cleanup(r, t1), o, tail);
    CleanupTwice(r, t1, t2);
  }
}
