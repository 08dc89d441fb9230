// The most-recently-used cache (lib/util/MRUCache.hpp): a recency list with a unique key.

module MRUCaches {
  import opened Wrappers

  /** Most recent first; keys are unique. */
  type Cache<K, V> = seq<(K, V)>

  /** The position of a key, or the length of the list. */
  function IndexOf<K(==), V>(c: Cache<K, V>, k: K): (i: nat)
    ensures i <= |c|
    ensures i < |c| ==> c[i].0 == k
    ensures forall j :: 0 <= j < i ==> c[j].0 != k
  {
    if c == [] then 0 else if c[0].0 == k then 0 else 1 + IndexOf(c[1..], k)
  }

  predicate Resident<K(==), V>(c: Cache<K, V>, k: K) {
    IndexOf(c, k) < |c|
  }

  function ValueOf<K(==), V>(c: Cache<K, V>, k: K): V
    requires Resident(c, k)
  {
    c[IndexOf(c, k)].1
  }

  function MoveToFront<K, V>(c: Cache<K, V>, i: nat): Cache<K, V>
    requires i < |c|
  {
    [c[i]] + c[..i] + c[i + 1..]
  }

  function Take<T>(s: seq<T>, n: nat): seq<T> {
    if |s| <= n then s else s[..n]
  }

  /** A key that is already resident keeps its old value and moves to the front. */
  function Inserted<K(==), V>(c: Cache<K, V>, k: K, v: V, capacity: nat): Cache<K, V> {
    if Resident(c, k) then MoveToFront(c, IndexOf(c, k)) else Take([(k, v)] + c, capacity)
  }

  function Touch<K(==), V>(c: Cache<K, V>, k: K): Cache<K, V> {
    if Resident(c, k) then MoveToFront(c, IndexOf(c, k)) else c
  }

  function Found<K(==), V>(c: Cache<K, V>, k: K): Option<V> {
    if Resident(c, k) then Some(ValueOf(c, k)) else None
  }

  function Removed<K(==), V>(c: Cache<K, V>, k: K): Cache<K, V> {
    if Resident(c, k) then c[..IndexOf(c, k)] + c[IndexOf(c, k) + 1..] else c
  }

  function Keys<K, V>(c: Cache<K, V>): (ks: seq<K>)
    ensures |ks| == |c| && forall i :: 0 <= i < |c| ==> ks[i] == c[i].0
  {
    seq(|c|, i requires 0 <= i < |c| => c[i].0)
  }

  ghost predicate Distinct<T>(s: seq<T>) {
    forall i, j :: 0 <= i < j < |s| ==> s[i] != s[j]
  }

  ghost predicate WellFormed<K, V>(c: Cache<K, V>, capacity: nat) {
    |c| <= capacity && Distinct(Keys(c))
  }

  lemma ResidentIsIn<K, V>(c: Cache<K, V>, k: K)
    ensures Resident(c, k) <==> k in Keys(c)
  {
  }

  /** In a well-formed cache a pair is what looking up its key gives. */
  lemma PairIsValue<K, V>(c: Cache<K, V>, i: nat)
    requires Distinct(Keys(c)) && i < |c|
    ensures IndexOf(c, c[i].0) == i && Found(c, c[i].0) == Some(c[i].1)
  {
  }

  // ---------------------------------------------------------------------------
  // Recency

  datatype CacheOp<K, V> = InsertOp(key: K, value: V) | LookupOp(key: K)

  function Apply<K(==), V>(c: Cache<K, V>, op: CacheOp<K, V>, capacity: nat): Cache<K, V> {
    match op
    case InsertOp(k, v) => Inserted(c, k, v, capacity)
    case LookupOp(k) => Touch(c, k)
  }

  /** Removing a key takes it out; the others keep their values and their order. */
  lemma RemovedKeeps<K, V>(c: Cache<K, V>, k: K, other: K)
    requires Distinct(Keys(c))
    ensures Keys(Removed(c, k)) == Without(Keys(c), k) && !Resident(Removed(c, k), k)
    ensures other != k ==> Found(Removed(c, k), other) == Found(c, other)
  {
    var r, i := Removed(c, k), IndexOf(c, k);
    ResidentIsIn(c, k);
    if Resident(c, k) {
      WithoutAt(Keys(c), i);
      assert Keys(c)[i] == k;
      assert Keys(r) == Keys(c)[..i] + Keys(c)[i + 1..];
    } else {
      WithoutAbsent(Keys(c), k);
    }
    WithoutIn(Keys(c), k);
    ResidentIsIn(r, k);
    ResidentIsIn(r, other);
    ResidentIsIn(c, other);
    if other != k && Resident(c, other) {
      var j := IndexOf(c, other);
      var at := if Resident(c, k) && i < j then j - 1 else j;
      assert r[at] == c[j];
      PairIsValue(r, at);
    }
  }

  /** The cache after a history that began with an empty one. */
  function After<K(==), V>(ops: seq<CacheOp<K, V>>, capacity: nat): Cache<K, V> {
    if ops == [] then [] else Apply(After(ops[..|ops| - 1], capacity), ops[|ops| - 1], capacity)
  }

  /** The keys of inserts and of lookups that hit, latest first. */
  function Touched<K(==), V>(ops: seq<CacheOp<K, V>>, capacity: nat): seq<K> {
    if ops == [] then []
    else
      var before, op := ops[..|ops| - 1], ops[|ops| - 1];
      if op.InsertOp? || Resident(After(before, capacity), op.key)
      then [op.key] + Touched(before, capacity)
      else Touched(before, capacity)
  }

  function Without<T(==)>(s: seq<T>, x: T): seq<T> {
    if s == [] then [] else if s[0] == x then Without(s[1..], x) else [s[0]] + Without(s[1..], x)
  }

  /** Each element at its first occurrence only. */
  function FirstOccurrences<T(==)>(s: seq<T>): seq<T> {
    if s == [] then [] else [s[0]] + Without(FirstOccurrences(s[1..]), s[0])
  }

  lemma {:induction false} WithoutAbsent<T>(s: seq<T>, x: T)
    requires x !in s
    ensures Without(s, x) == s
  {
    if s != [] {
      WithoutAbsent(s[1..], x);
    }
  }

  lemma {:induction false} WithoutIn<T>(s: seq<T>, x: T)
    ensures x !in Without(s, x)
    ensures forall y :: y in Without(s, x) <==> y in s && y != x
    ensures Distinct(s) ==> Distinct(Without(s, x))
    ensures |Without(s, x)| <= |s|
  {
    if s != [] {
      WithoutIn(s[1..], x);
      assert s == [s[0]] + s[1..];
      if Distinct(s) {
        assert Distinct(s[1..]);
        assert s[0] !in s[1..];
      }
    }
  }

  /** Removing the element at a known place of a list without duplicates. */
  lemma {:induction false} WithoutAt<T>(s: seq<T>, i: nat)
    requires Distinct(s) && i < |s|
    ensures Without(s, s[i]) == s[..i] + s[i + 1..]
  {
    if i == 0 {
      assert s[0] !in s[1..];
      WithoutAbsent(s[1..], s[0]);
    } else {
      assert s[1..][i - 1] == s[i];
      assert Distinct(s[1..]);
      WithoutAt(s[1..], i - 1);
      assert s[..i] + s[i + 1..] == [s[0]] + (s[1..][..i - 1] + s[1..][i..]);
    }
  }

  // Removal from a list and from its beginning.

  lemma WithoutTakeIn<T>(s: seq<T>, n: nat, i: nat)
    requires Distinct(s) && i < n && i < |s|
    ensures Take(Without(s, s[i]), n - 1) == Without(Take(s, n), s[i])
  {
    if |s| <= n {
      WithoutAt(s, i);
    } else {
      WithoutAt(s, i);
      PrefixDistinct(s, n);
      WithoutAt(s[..n], i);
      hide Without;
      hide Distinct;
      CutSlices(s, n, i);
    }
  }

  lemma CutSlices<T>(s: seq<T>, n: nat, i: nat)
    requires i < n < |s|
    ensures (s[..i] + s[i + 1..])[..n - 1] == s[..n][..i] + s[..n][i + 1..]
  {
  }

  lemma PrefixDistinct<T>(s: seq<T>, n: nat)
    requires Distinct(s) && n <= |s|
    ensures Distinct(s[..n])
  {
  }

  lemma WithoutTakeOut<T>(s: seq<T>, n: nat, x: T)
    requires Distinct(s) && n > 0 && x !in Take(s, n)
    ensures Take(Without(s, x), n - 1) == Take(s, n - 1)
  {
    if x in s {
      var i :| 0 <= i < |s| && s[i] == x;
      assert Take(s, n) == s[..Min(|s|, n)];
      assert forall y :: 0 <= y < Min(|s|, n) ==> s[y] in Take(s, n);
      WithoutAt(s, i);
      hide Without;
      assert (s[..i] + s[i + 1..])[..n - 1] == s[..n - 1];
    } else {
      WithoutAbsent(s, x);
    }
  }

  lemma {:induction false} FirstOccurrencesDistinct<T>(s: seq<T>)
    ensures Distinct(FirstOccurrences(s))
  {
    if s != [] {
      FirstOccurrencesDistinct(s[1..]);
      WithoutIn(FirstOccurrences(s[1..]), s[0]);
    }
  }

  lemma KeysToFront<K, V>(c: Cache<K, V>, k: K)
    requires Distinct(Keys(c)) && Resident(c, k)
    ensures Keys(MoveToFront(c, IndexOf(c, k))) == [k] + Without(Keys(c), k)
  {
    var i := IndexOf(c, k);
    WithoutAt(Keys(c), i);
    assert Keys(MoveToFront(c, i)) == [k] + (Keys(c)[..i] + Keys(c)[i + 1..]);
  }

  lemma TouchResident<K, V>(c: Cache<K, V>, k: K, order: seq<K>, capacity: nat)
    requires capacity > 0 && Distinct(order) && Keys(c) == Take(order, capacity) && Resident(c, k)
    ensures Keys(MoveToFront(c, IndexOf(c, k))) == Take([k] + Without(order, k), capacity)
  {
    var i := IndexOf(c, k);
    assert order[i] == Keys(c)[i] == k;
    assert Distinct(Keys(c));
    WithoutTakeIn(order, capacity, i);
    KeysToFront(c, k);
    hide MoveToFront;
    hide Without;
    TakeFirst(k, Without(order, k), capacity);
  }

  lemma TouchNew<K, V>(c: Cache<K, V>, k: K, v: V, order: seq<K>, capacity: nat)
    requires capacity > 0 && Distinct(order) && Keys(c) == Take(order, capacity) && !Resident(c, k)
    ensures Keys(Take([(k, v)] + c, capacity)) == Take([k] + Without(order, k), capacity)
  {
    ResidentIsIn(c, k);
    WithoutTakeOut(order, capacity, k);
    hide Without;
    TakeFirst(k, Without(order, k), capacity);
    TakeFirst((k, v), c, capacity);
  }

  /** One touch: the key goes to the front of the recency order. */
  lemma TouchOrder<K, V>(c: Cache<K, V>, k: K, v: V, history: seq<K>, capacity: nat)
    requires capacity > 0 && Keys(c) == Take(FirstOccurrences(history), capacity)
    ensures Keys(Inserted(c, k, v, capacity)) == Take(FirstOccurrences([k] + history), capacity)
  {
    var order := FirstOccurrences(history);
    FirstOccurrencesDistinct(history);
    assert ([k] + history)[1..] == history;
    assert FirstOccurrences([k] + history) == [k] + Without(order, k);
    hide FirstOccurrences;
    hide Without;
    hide Take;
    hide MoveToFront;
    if Resident(c, k) {
      TouchResident(c, k, order, capacity);
    } else {
      TouchNew(c, k, v, order, capacity);
    }
  }

  lemma TakeFirst<T>(x: T, s: seq<T>, n: nat)
    requires n > 0
    ensures Take([x] + s, n) == [x] + Take(s, n - 1)
  {
  }

  /**
   * The cache is exactly recency: its keys, in order, are the first `capacity` distinct keys
   * among the inserts and lookup hits, latest first.
   */
  lemma {:induction false} CacheIsRecency<K, V>(ops: seq<CacheOp<K, V>>, capacity: nat)
    requires capacity > 0
    ensures Keys(After(ops, capacity)) == Take(FirstOccurrences(Touched(ops, capacity)), capacity)
    ensures WellFormed(After(ops, capacity), capacity)
  {
    if ops != [] {
      var before, op := ops[..|ops| - 1], ops[|ops| - 1];
      CacheIsRecency(before, capacity);
      var c := After(before, capacity);
      if op.InsertOp? {
        TouchOrder(c, op.key, op.value, Touched(before, capacity), capacity);
      } else if Resident(c, op.key) {
        TouchOrder(c, op.key, ValueOf(c, op.key), Touched(before, capacity), capacity);
      }
      FirstOccurrencesDistinct(Touched(ops, capacity));
    }
  }

  /** A key present on both sides of a step keeps its value. */
  lemma ApplyKeepsValue<K, V>(c: Cache<K, V>, op: CacheOp<K, V>, capacity: nat, k: K)
    requires WellFormed(c, capacity) && Resident(c, k) && Resident(Apply(c, op, capacity), k)
    ensures ValueOf(Apply(c, op, capacity), k) == ValueOf(c, k)
  {
    var c1 := Apply(c, op, capacity);
    var x := IndexOf(c1, k);
    if Resident(c, op.key) {
      var i := IndexOf(c, op.key);
      var y := if x == 0 then i else if x <= i then x - 1 else x;
      assert c1[x] == c[y];
      PairIsValue(c, y);
    } else if op.InsertOp? {
      assert op.key != k;
      assert c1[x] == c[x - 1];
      PairIsValue(c, x - 1);
    }
  }

  /**
   * The value of a resident key is the one of the insert that last made the key resident:
   * that insert found it absent, and it has been resident ever since.
   */
  lemma {:induction false} ValueOrigin<K, V>(ops: seq<CacheOp<K, V>>, capacity: nat, k: K) returns (j: nat)
    requires capacity > 0 && Resident(After(ops, capacity), k)
    ensures j < |ops| && ops[j] == InsertOp(k, ValueOf(After(ops, capacity), k))
    ensures !Resident(After(ops[..j], capacity), k)
    ensures forall m :: j < m <= |ops| ==> Resident(After(ops[..m], capacity), k)
  {
    hide *;
    AfterLast(ops, capacity, k);
    var before, op := ops[..|ops| - 1], ops[|ops| - 1];
    var c := After(before, capacity);
    if Resident(c, k) {
      ApplyKeepsValue(c, op, capacity, k);
      j := ValueOrigin(before, capacity, k);
      PrefixOfPrefix(ops, j);
      forall m | j < m <= |ops| ensures Resident(After(ops[..m], capacity), k) {
        PrefixOfPrefix(ops, m);
      }
    } else {
      j := |ops| - 1;
      ApplyAdds(c, op, capacity, k);
      forall m | j < m <= |ops| ensures Resident(After(ops[..m], capacity), k) {
        PrefixOfPrefix(ops, m);
      }
    }
  }

  lemma AfterLast<K, V>(ops: seq<CacheOp<K, V>>, capacity: nat, k: K)
    requires capacity > 0 && Resident(After(ops, capacity), k)
    ensures ops != [] && var c := After(ops[..|ops| - 1], capacity);
                         After(ops, capacity) == Apply(c, ops[|ops| - 1], capacity) && WellFormed(c, capacity)
  {
    if ops != [] {
      CacheIsRecency(ops[..|ops| - 1], capacity);
    }
    hide Apply;
  }

  lemma PrefixOfPrefix<T>(s: seq<T>, m: nat)
    requires 0 < |s| && m <= |s|
    ensures s[..m] == if m == |s| then s else s[..|s| - 1][..m]
  {
  }

  lemma MoveKeepsKeys<K, V>(c: Cache<K, V>, i: nat, k: K)
    requires i < |c| && Resident(MoveToFront(c, i), k)
    ensures Resident(c, k)
  {
    var moved := MoveToFront(c, i);
    var x := IndexOf(moved, k);
    var y := if x == 0 then i else if x <= i then x - 1 else x;
    assert c[y] == moved[x];
  }

  lemma ApplyAdds<K, V>(c: Cache<K, V>, op: CacheOp<K, V>, capacity: nat, k: K)
    requires !Resident(c, k) && Resident(Apply(c, op, capacity), k)
    ensures op.InsertOp? && op.key == k && ValueOf(Apply(c, op, capacity), k) == op.value
  {
    if Resident(c, op.key) {
      MoveKeepsKeys(c, IndexOf(c, op.key), k);
    } else if op.InsertOp? {
      var c1 := Take([(op.key, op.value)] + c, capacity);
      var x := IndexOf(c1, k);
      assert x > 0 ==> c1[x] == c[x - 1];
    }
  }

  /** Every operation keeps keys unique and the size within the capacity. */
  lemma ApplyWellFormed<K, V>(c: Cache<K, V>, op: CacheOp<K, V>, capacity: nat)
    requires capacity > 0 && WellFormed(c, capacity)
    ensures WellFormed(Apply(c, op, capacity), capacity)
  {
    if Resident(c, op.key) {
      KeysToFront(c, op.key);
      WithoutIn(Keys(c), op.key);
    } else if op.InsertOp? {
      ResidentIsIn(c, op.key);
      TakeFirst((op.key, op.value), c, capacity);
      assert forall i :: 0 <= i < |c| ==> Keys(c)[i] != op.key;
    }
  }

  /** After an operation, a resident key has its old value, or is new and has the inserted one. */
  lemma ApplyValues<K, V>(c: Cache<K, V>, op: CacheOp<K, V>, capacity: nat, k: K)
    requires capacity > 0 && WellFormed(c, capacity) && Resident(Apply(c, op, capacity), k)
    ensures Resident(c, k) ==> ValueOf(Apply(c, op, capacity), k) == ValueOf(c, k)
    ensures !Resident(c, k) ==> op.InsertOp? && op.key == k && ValueOf(Apply(c, op, capacity), k) == op.value
  {
    if Resident(c, k) {
      ApplyKeepsValue(c, op, capacity, k);
    } else {
      ApplyAdds(c, op, capacity, k);
    }
  }

  // ---------------------------------------------------------------------------
  // The cache object

  class MRUCache<K(==), V> {
    const capacity: nat
    var items: seq<(K, V)>

    constructor (cap: nat)
      requires cap > 0
      ensures capacity == cap && items == []
    {
      capacity := cap;
      items := [];
    }

    /** Pushes to the front; a duplicate is relocated instead, and an overflow drops the last. */
    method Insert(key: K, value: V)
      requires |items| <= capacity
      modifies `items
      ensures items == Inserted(old(items), key, value, capacity) && |items| <= capacity
    {
      var i := IndexOf(items, key);
      if i < |items| {
        items := [items[i]] + items[..i] + items[i + 1..];
      } else {
        items := [(key, value)] + items;
        if |items| > capacity {
          items := items[..|items| - 1];
        }
      }
    }

    method Lookup(key: K) returns (value: Option<V>)
      modifies `items
      ensures value == Found(old(items), key) && items == Touch(old(items), key)
    {
      var i := IndexOf(items, key);
      if i == |items| {
        return None;
      }
      value := Some(items[i].1);
      items := [items[i]] + items[..i] + items[i + 1..];
    }

    method Remove(key: K) returns (removed: bool)
      modifies `items
      ensures items == Removed(old(items), key) && removed == Resident(old(items), key)
    {
      var i := IndexOf(items, key);
      if i == |items| {
        return false;
      }
      items := items[..i] + items[i + 1..];
      removed := true;
    }

    method Clear()
      modifies `items
      ensures items == []
    {
      items := [];
    }
  }
}
