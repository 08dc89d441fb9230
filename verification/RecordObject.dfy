// The mutable record object, its stream printer and its stream parser
// (lib/ondisk/Record.hpp), each tied to the functions of module Records.

module RecordObject {
  import opened Wrappers
  import opened Serialization
  import opened Properties
  import opened Records

  /** The parser's loop: `done` holds the pairs already read. */
  function ReadPairs<V>(n: nat, b: Bytes, parse: Bytes -> Parsed<V>, done: seq<(Bytes, V)>): Parsed<seq<(Bytes, V)>> {
    if n == 0 then Got(done, b)
    else
      var (kv, b1) :- ParsePair(b, parse);
      ReadPairs(n - 1, b1, parse, done + [kv])
  }

  lemma {:induction false} ReadPairsParses<V>(n: nat, b: Bytes, parse: Bytes -> Parsed<V>, done: seq<(Bytes, V)>)
    ensures ReadPairs(n, b, parse, done)
            == match ParsePairs(n, b, parse) case Got(ps, rest) => Got(done + ps, rest) case Short => Short
  {
    if n == 0 {
      assert done + [] == done;
    } else {
      var one := ParsePair(b, parse);
      if one.Got? {
        ReadPairsParses(n - 1, one.rest, parse, done + [one.value]);
        var more := ParsePairs(n - 1, one.rest, parse);
        if more.Got? {
          assert done + [one.value] + more.value == done + ([one.value] + more.value);
        }
      }
    }
  }

  lemma ReadSection<V>(b: Bytes, parse: Bytes -> Parsed<V>)
    requires ParseUInt(b, 8).Got?
    ensures ParseSection(b, parse) == ReadPairs(ParseUInt(b, 8).value, ParseUInt(b, 8).rest, parse, [])
  {
    var n, rest := ParseUInt(b, 8).value, ParseUInt(b, 8).rest;
    ReadPairsParses(n, rest, parse, []);
    var p := ParsePairs(n, rest, parse);
    if p.Got? {
      assert [] + p.value == p.value;
    }
  }

  lemma {:induction false} AssignLast<V>(ps: seq<(Bytes, V)>, k: Bytes, v: V, m: map<Bytes, V>)
    ensures Assign(ps + [(k, v)], m) == Assign(ps, m)[k := v]
  {
    if ps == [] {
    } else {
      assert (ps + [(k, v)])[1..] == ps[1..] + [(k, v)];
      AssignLast(ps[1..], k, v, m[ps[0].0 := ps[0].1]);
    }
  }

  lemma {:induction false} AddAllLast(ps: seq<(Bytes, nat)>, k: Bytes, h: nat, m: map<Bytes, nat>, ok: bool)
    ensures var (c, o) := AddAll(ps, m, ok);
            AddAll(ps + [(k, h)], m, ok) == if CanAdd(c, k, h) then (c[k := h], o) else (c, false)
  {
    if ps == [] {
    } else {
      assert (ps + [(k, h)])[1..] == ps[1..] + [(k, h)];
      if CanAdd(m, ps[0].0, ps[0].1) {
        AddAllLast(ps[1..], k, h, m[ps[0].0 := ps[0].1], ok);
      } else {
        AddAllLast(ps[1..], k, h, m, false);
      }
    }
  }

  lemma {:induction false} PrintPairsLast<V>(ps: seq<(Bytes, V)>, k: Bytes, v: V, print_: V -> Bytes)
    ensures PrintPairs(ps + [(k, v)], print_) == PrintPairs(ps, print_) + PrintString(k) + print_(v)
  {
    if ps == [] {
      assert PrintPairs([(k, v)], print_) == PrintString(k) + print_(v) + PrintPairs<V>([], print_);
    } else {
      assert (ps + [(k, v)])[1..] == ps[1..] + [(k, v)];
      PrintPairsLast(ps[1..], k, v, print_);
    }
  }

  /** Printing one more key: it extends the order, and its pair follows the pairs already out. */
  lemma OrderStep<V>(m: map<Bytes, V>, order: seq<Bytes>, todo: set<Bytes>, k: Bytes, print_: V -> Bytes, out: Bytes)
    requires WalkedSoFar(order, m, todo) && k in todo
    ensures WalkedSoFar(order + [k], m, todo - {k})
    ensures out + PrintPairs(PairsOf(m, order + [k]), print_)
            == out + PrintPairs(PairsOf(m, order), print_) + PrintString(k) + print_(m[k])
  {
    WalkStep(order, m, todo, k);
    var ps := PairsOf(m, order);
    assert PairsOf(m, order + [k]) == ps + [(k, m[k])];
    PrintPairsLast(ps, k, m[k], print_);
    Regroup(out, PrintPairs(ps, print_), PrintString(k), print_(m[k]));
  }

  /** The pairs of a container, one key at a time, in whatever order the container yields. */
  method PutPairs<V>(s: Serializer, m: map<Bytes, V>, print_: V -> Bytes) returns (ghost order: seq<Bytes>)
    modifies s
    ensures IsOrder(order, m)
    ensures s.out == old(s.out) + PrintPairs(PairsOf(m, order), print_)
  {
    hide PrintString;
    order := [];
    var todo := m.Keys;
    while todo != {}
      invariant WalkedSoFar(order, m, todo)
      invariant s.out == old(s.out) + PrintPairs(PairsOf(m, order), print_)
      decreases |todo|
    {
      var k :| k in todo;
      OrderStep(m, order, todo, k, print_, old(s.out));
      s.PutString(k);
      s.out := s.out + print_(m[k]);
      todo := todo - {k};
      order := order + [k];
    }
  }

  /** A container section: the count, then the pairs. */
  method PutSection<V>(s: Serializer, m: map<Bytes, V>, print_: V -> Bytes) returns (ghost order: seq<Bytes>)
    modifies s
    ensures IsOrder(order, m)
    ensures s.out == old(s.out) + PrintSection(PairsOf(m, order), print_)
  {
    s.PutUInt(|m|, 8);
    order := PutPairs(s, m, print_);
    OrderLength(order, m);
    hide PrintPairs;
    RegroupTwo(old(s.out), PrintUInt(|m|, 8), PrintPairs(PairsOf(m, order), print_));
  }

  class Record {
    var key: nat
    var parent: nat
    var name: Bytes
    var props: map<Bytes, Property>
    var children: map<Bytes, nat>
    var expiry: map<Bytes, int>

    ghost function View(): Rec
      reads this
    {
      Rec(key, parent, name, props, children, expiry)
    }

    constructor (handle: nat, recordName: Bytes)
      ensures View() == NewRec(handle, recordName)
    {
      key, parent, name := handle, INVALID_HANDLE, recordName;
      props, children, expiry := map[], map[], map[];
    }

    method HasProperty(p: Bytes, now: int) returns (has: bool)
      ensures has == HasProp(View(), p, now)
    {
      if p in expiry && expiry[p] <= now {
        return false;
      }
      has := p in props;
    }

    method GetProperty(p: Bytes, now: int) returns (value: Option<Property>)
      ensures value == GetProp(View(), p, now)
    {
      if p in expiry && expiry[p] <= now {
        return None;
      }
      value := if p in props then Some(props[p]) else None;
    }

    method CancelPropertyExpiration(p: Bytes)
      modifies `expiry
      ensures View() == CancelExpiry(old(View()), p)
    {
      expiry := expiry - {p};
    }

    method SetProperty(p: Bytes, v: Property)
      modifies `props, `expiry
      ensures View() == SetProp(old(View()), p, v)
    {
      CancelPropertyExpiration(p);
      props := props[p := v];
    }

    method RemoveProperty(p: Bytes) returns (status: Status)
      modifies `props, `expiry
      ensures View() == RemoveProp(old(View()), p)
      ensures status == if p in old(props) then Ok else NotFound
    {
      CancelPropertyExpiration(p);
      status := if p in props then Ok else NotFound;
      props := props - {p};
    }

    method ExpireProperty(p: Bytes, now: int, ms: int) returns (status: Status)
      modifies `expiry
      ensures View() == ExpireProp(old(View()), p, now, ms)
      ensures status == if HasProp(old(View()), p, now) then Ok else NotFound
    {
      var has := HasProperty(p, now);
      if !has {
        return NotFound;
      }
      expiry := expiry[p := now + ms];
      status := Ok;
    }

    method Properties(now: int) returns (visible: map<Bytes, Property>)
      ensures visible == VisibleProps(View(), now)
    {
      visible := map[];
      var todo := props.Keys;
      while todo != {}
        invariant todo <= props.Keys
        invariant visible == map p | p in props && p !in todo && !Expired(View(), p, now) :: props[p]
        decreases |todo|
      {
        var p :| p in todo;
        todo := todo - {p};
        if !(p in expiry && expiry[p] <= now) {
          visible := visible[p := props[p]];
        }
      }
    }

    /** Only a record without a parent can be added, and only under a new name and a new handle. */
    method AddChild(e: Record) returns (status: Status)
      modifies `children, e`parent
      ensures status == if old(e.parent) == INVALID_HANDLE && CanAdd(old(children), e.name, e.key) then Ok
                else InvalidArgument
      ensures children == if status.Ok? then old(children)[e.name := e.key] else old(children)
      ensures e.parent == if status.Ok? then key else old(e.parent)
    {
      if e.parent != INVALID_HANDLE {
        return InvalidArgument;
      }
      if CanAdd(children, e.name, e.key) {
        children := children[e.name := e.key];
        e.parent := key;
        return Ok;
      }
      status := InvalidArgument;
    }

    /** Found by handle, whatever the name. */
    method RemoveChild(e: Record) returns (status: Status)
      modifies `children, e`parent
      ensures status == if e.key in old(children).Values then Ok else InvalidArgument
      ensures children == WithoutHandle(old(children), e.key)
      ensures e.parent == if status.Ok? then INVALID_HANDLE else old(e.parent)
    {
      if e.key !in children.Values {
        assert children == WithoutHandle(children, e.key);
        return InvalidArgument;
      }
      children := WithoutHandle(children, e.key);
      e.parent := INVALID_HANDLE;
      status := Ok;
    }

    /** Collects the expired names, then removes them one by one. */
    method DoPropertyCleanup(now: int)
      modifies `props, `expiry
      ensures View() == Cleanup(old(View()), now)
    {
      ghost var was := View();
      var expired: set<Bytes> := {};
      var todo := expiry.Keys;
      while todo != {}
        invariant todo <= expiry.Keys
        invariant View() == was
        invariant forall p :: p in expired <==> p in expiry && p !in todo && Expired(was, p, now)
        decreases |todo|
      {
        var p :| p in todo;
        todo := todo - {p};
        if expiry[p] <= now {
          expired := expired + {p};
        }
      }
      assert expired == ExpiredProps(was, now);
      var removed: set<Bytes> := {};
      while removed != expired
        invariant removed <= expired
        invariant View() == was.(props := was.props - removed, expiry := was.expiry - removed)
        decreases expired - removed
      {
        var p :| p in expired && p !in removed;
        var _ := RemoveProperty(p);
        assert was.props - removed - {p} == was.props - (removed + {p});
        assert was.expiry - removed - {p} == was.expiry - (removed + {p});
        removed := removed + {p};
      }
    }

    /** operator<<: cleans this record up, then prints it. */
    method Print(s: Serializer, now: int) returns (ghost o: Orders)
      modifies `props, `expiry, s
      ensures View() == Cleanup(old(View()), now)
      ensures AreOrders(o, View()) && s.out == old(s.out) + PrintRec(View(), o)
    {
      DoPropertyCleanup(now);
      o := PrintAll(s);
    }

    method PrintAll(s: Serializer) returns (ghost o: Orders)
      modifies s
      ensures AreOrders(o, View()) && s.out == old(s.out) + PrintRec(View(), o)
    {
      hide PrintHead;
      hide PrintBody;
      PrintFields(s);
      o := PrintContainers(s);
      RegroupTwo(old(s.out), PrintHead(View()), PrintBody(View(), o));
    }

    method PrintFields(s: Serializer)
      modifies s
      ensures s.out == old(s.out) + PrintHead(View())
    {
      s.PutUInt(key, 8);
      s.PutUInt(parent, 8);
      s.PutString(name);
      Regroup(old(s.out), PrintUInt(key, 8), PrintUInt(parent, 8), PrintString(name));
    }

    method PrintContainers(s: Serializer) returns (ghost o: Orders)
      modifies s
      ensures AreOrders(o, View())
      ensures s.out == old(s.out) + PrintBody(View(), o)
    {
      ghost var po := PutSection(s, props, PrintProperty);
      ghost var co := PutSection<nat>(s, children, PrintHandle);
      ghost var eo := PutSection(s, expiry, PrintTime);
      o := Orders(po, co, eo);
      Regroup(old(s.out), PrintSection(PairsOf(props, po), PrintProperty),
              PrintSection(PairsOf<nat>(children, co), PrintHandle), PrintSection(PairsOf(expiry, eo), PrintTime));
    }
  }

  /** operator>>: `good` of the stream tells whether the input was long enough. */
  method Parse(d: Deserializer, now: int) returns (r: Record, allAdded: bool)
    requires d.good
    modifies d
    ensures fresh(r)
    ensures d.good <==> ParseRec(old(d.rest), now).Got?
    ensures d.good ==> ParseRec(old(d.rest), now) == Got((r.View(), allAdded), d.rest)
  {
    allAdded := true;
    r := ParseFields(d);
    if d.good {
      allAdded := ParseContainers(d, r);
    }
    r.DoPropertyCleanup(now);
  }

  method ParseFields(d: Deserializer) returns (r: Record)
    requires d.good
    modifies d
    ensures fresh(r)
    ensures d.good <==> ParseHead(old(d.rest)).Got?
    ensures d.good ==> ParseHead(old(d.rest)) == Got(r.View(), d.rest)
    ensures d.good ==> r.View() == NewRec(r.key, r.name).(parent := r.parent)
  {
    var handle := d.GetUInt(8);
    var parent := d.GetUInt(8);
    var name := d.GetString();
    r := new Record(handle, name);
    r.parent := parent;
  }

  method ParseContainers(d: Deserializer, r: Record) returns (allAdded: bool)
    requires d.good && r.View() == NewRec(r.key, r.name).(parent := r.parent)
    modifies d, r
    ensures d.good <==> ParseBody(old(d.rest), old(r.View())).Got?
    ensures d.good ==> ParseBody(old(d.rest), old(r.View())) == Got((r.View(), allAdded), d.rest)
  {
    allAdded := true;
    ghost var props := ParseProps(d, r);
    ghost var children: seq<(Bytes, nat)>, expiry := [], [];
    if d.good {
      allAdded, children := ParseChildren(d, r);
    }
    if d.good {
      expiry := ParseExpiry(d, r);
    }
  }

  method GetPropPair(d: Deserializer) returns (prop: Bytes, value: Property)
    requires d.good
    modifies d
    ensures d.good <==> ParsePair(old(d.rest), ParseProperty).Got?
    ensures d.good ==> ParsePair(old(d.rest), ParseProperty) == Got((prop, value), d.rest)
  {
    prop := d.GetString();
    value := GetProperty(d);
  }

  method GetHandlePair(d: Deserializer) returns (name: Bytes, handle: nat)
    requires d.good
    modifies d
    ensures d.good <==> ParsePair(old(d.rest), ParseHandle).Got?
    ensures d.good ==> ParsePair(old(d.rest), ParseHandle) == Got((name, handle), d.rest)
  {
    name := d.GetString();
    handle := d.GetUInt(8);
  }

  method GetTimePair(d: Deserializer) returns (name: Bytes, ts: int)
    requires d.good
    modifies d
    ensures d.good <==> ParsePair(old(d.rest), ParseTime).Got?
    ensures d.good ==> ParsePair(old(d.rest), ParseTime) == Got((name, ts), d.rest)
  {
    name := d.GetString();
    var n := d.GetUInt(8);
    ts := ToSigned(n, TWO64);
  }

  method ParseProps(d: Deserializer, r: Record) returns (ghost ps: seq<(Bytes, Property)>)
    requires d.good && r.props == map[] && r.expiry == map[]
    modifies d, r`props, r`expiry
    ensures d.good <==> ParseSection(old(d.rest), ParseProperty).Got?
    ensures d.good ==> ParseSection(old(d.rest), ParseProperty) == Got(ps, d.rest) && r.props == Assign(ps, map[])
    ensures r.expiry == map[]
  {
    hide ParseProperty;
    hide ParsePair;
    ghost var whole := ParseSection(d.rest, ParseProperty);
    ps := [];
    var n := d.GetUInt(8);
    var i := 0;
    if d.good {
      ReadSection(old(d.rest), ParseProperty);
    }
    while i < n && d.good
      invariant 0 <= i <= n
      invariant r.expiry == map[]
      invariant whole == if d.good then ReadPairs(n - i, d.rest, ParseProperty, ps) else Short
      invariant r.props == Assign(ps, map[])
      decreases n - i, d.good
    {
      var prop, value := GetPropPair(d);
      if d.good {
        AssignLast(ps, prop, value, map[]);
        r.SetProperty(prop, value);
        ps := ps + [(prop, value)];
        i := i + 1;
      }
    }
  }

  method ParseChildren(d: Deserializer, r: Record) returns (allAdded: bool, ghost ps: seq<(Bytes, nat)>)
    requires d.good && r.children == map[]
    modifies d, r`children
    ensures d.good <==> ParseSection(old(d.rest), ParseHandle).Got?
    ensures d.good ==> ParseSection(old(d.rest), ParseHandle) == Got(ps, d.rest)
                       && AddAll(ps, map[], true) == (r.children, allAdded)
  {
    hide ParseHandle;
    hide ParsePair;
    ghost var whole := ParseSection(d.rest, ParseHandle);
    ps := [];
    allAdded := true;
    var n := d.GetUInt(8);
    var i := 0;
    if d.good {
      ReadSection(old(d.rest), ParseHandle);
    }
    while i < n && d.good
      invariant 0 <= i <= n
      invariant whole == if d.good then ReadPairs(n - i, d.rest, ParseHandle, ps) else Short
      invariant AddAll(ps, map[], true) == (r.children, allAdded)
      decreases n - i, d.good
    {
      var cname, chandle := GetHandlePair(d);
      if d.good {
        AddAllLast(ps, cname, chandle, map[], true);
        var child := new Record(chandle, cname);
        var status := r.AddChild(child);
        allAdded := allAdded && status.Ok?;
        ps := ps + [(cname, chandle)];
        i := i + 1;
      }
    }
  }

  method ParseExpiry(d: Deserializer, r: Record) returns (ghost ps: seq<(Bytes, int)>)
    requires d.good && r.expiry == map[]
    modifies d, r`expiry
    ensures d.good <==> ParseSection(old(d.rest), ParseTime).Got?
    ensures d.good ==> ParseSection(old(d.rest), ParseTime) == Got(ps, d.rest) && r.expiry == Assign(ps, map[])
  {
    hide ParseTime;
    hide ParsePair;
    ghost var whole := ParseSection(d.rest, ParseTime);
    ps := [];
    var n := d.GetUInt(8);
    var i := 0;
    if d.good {
      ReadSection(old(d.rest), ParseTime);
    }
    while i < n && d.good
      invariant 0 <= i <= n
      invariant whole == if d.good then ReadPairs(n - i, d.rest, ParseTime, ps) else Short
      invariant r.expiry == Assign(ps, map[])
      decreases n - i, d.good
    {
      var pname, ts := GetTimePair(d);
      if d.good {
        AssignLast(ps, pname, ts, map[]);
        r.expiry := r.expiry[pname := ts];
        ps := ps + [(pname, ts)];
        i := i + 1;
      }
    }
  }
}
