// Path strings: splitting at the separator, simplification of "." and "..", and the walk
// from a path up to the root (lib/util/String.cpp, StringPath.cpp, StringPathIterator.cpp).

module Paths {
  import opened Wrappers
  import opened Serialization

  const SEPARATOR: byte := 47
  const DOT: byte := 46

  type Path = seq<Bytes>

  // ---------------------------------------------------------------------------
  // Specification: a string is its components, a simplified path is a stack of them

  /** Reads `s`, with `run` the separator-free bytes since the last separator. */
  function SplitFrom(s: Bytes, run: Bytes): seq<Bytes> {
    if s == [] then (if run == [] then [] else [run])
    else if s[0] == SEPARATOR then (if run == [] then [] else [run]) + SplitFrom(s[1..], [])
    else SplitFrom(s[1..], run + [s[0]])
  }

  function Split(s: Bytes): seq<Bytes> {
    SplitFrom(s, [])
  }

  /** A component as split returns it: not empty and free of separators. */
  predicate Component(c: Bytes) {
    c != [] && SEPARATOR !in c
  }

  /** A component that simplification keeps: also neither "." nor "..". */
  predicate Name(c: Bytes) {
    Component(c) && c != [DOT] && c != [DOT, DOT]
  }

  predicate Components(cs: seq<Bytes>) {
    forall i :: 0 <= i < |cs| ==> Component(cs[i])
  }

  predicate Names(cs: Path) {
    forall i :: 0 <= i < |cs| ==> Name(cs[i])
  }

  /** One component against the stack: "." stays, ".." goes up but not above the root. */
  function Push(stack: Path, c: Bytes): Path {
    if c == [] || c == [DOT] then stack
    else if c == [DOT, DOT] then (if stack == [] then [] else stack[..|stack| - 1])
    else stack + [c]
  }

  function Resolve(cs: seq<Bytes>, stack: Path): Path {
    if cs == [] then stack else Resolve(cs[1..], Push(stack, cs[0]))
  }

  /** Every component behind its own separator. */
  function Joined(cs: Path): Bytes {
    if cs == [] then [] else [SEPARATOR] + cs[0] + Joined(cs[1..])
  }

  /** The string of a path; the root is a lone separator. */
  function PathString(cs: Path): Bytes {
    if cs == [] then [SEPARATOR] else Joined(cs)
  }

  function ComponentsOf(s: Bytes): Path {
    Resolve(Split(s), [])
  }

  function Simplify(s: Bytes): Bytes {
    PathString(ComponentsOf(s))
  }

  // ---------------------------------------------------------------------------
  // Split

  lemma {:induction false} SplitFromComponents(s: Bytes, run: Bytes)
    requires SEPARATOR !in run
    ensures Components(SplitFrom(s, run))
  {
    if s != [] {
      SplitFromComponents(s[1..], if s[0] == SEPARATOR then [] else run + [s[0]]);
    }
  }

  /** Split distributes over a separator. */
  lemma {:induction false} SplitFromConcat(a: Bytes, b: Bytes, run: Bytes)
    ensures SplitFrom(a + [SEPARATOR] + b, run) == SplitFrom(a, run) + Split(b)
  {
    if a == [] {
      assert [] + [SEPARATOR] + b == [SEPARATOR] + b;
      assert ([SEPARATOR] + b)[1..] == b;
    } else {
      assert (a + [SEPARATOR] + b)[1..] == a[1..] + [SEPARATOR] + b;
      SplitFromConcat(a[1..], b, if a[0] == SEPARATOR then [] else run + [a[0]]);
    }
  }

  lemma {:induction false} SplitFromRun(c: Bytes, run: Bytes)
    requires SEPARATOR !in c
    ensures SplitFrom(c, run) == if run + c == [] then [] else [run + c]
  {
    if c == [] {
      assert run + c == run;
    } else {
      SplitFromRun(c[1..], run + [c[0]]);
      assert run + [c[0]] + c[1..] == run + c;
    }
  }

  /** A component in front of a path is the first component. */
  lemma SplitFirst(c: Bytes, more: Bytes)
    requires Component(c)
    ensures Split([SEPARATOR] + c) == [c]
    ensures Split([SEPARATOR] + c + [SEPARATOR] + more) == [c] + Split(more)
  {
    SplitFromRun(c, []);
    assert [] + c == c;
    SplitFromConcat([], c, []);
    assert [] + [SEPARATOR] + c == [SEPARATOR] + c;
    SplitFromConcat([SEPARATOR] + c, more, []);
  }

  /** Splitting a joined path gives its components back. */
  lemma {:induction false} SplitJoined(cs: Path)
    requires Components(cs)
    ensures Split(Joined(cs)) == cs
  {
    if cs != [] {
      SplitJoined(cs[1..]);
      assert Component(cs[0]);
      var more := Joined(cs[1..]);
      SplitFirst(cs[0], if more == [] then [] else more[1..]);
      if cs[1..] == [] {
        assert [SEPARATOR] + cs[0] + [] == [SEPARATOR] + cs[0];
        assert cs == [cs[0]];
      } else {
        assert more == [SEPARATOR] + more[1..];
        SplitAfterSeparator(more[1..]);
        assert [SEPARATOR] + cs[0] + more == [SEPARATOR] + cs[0] + [SEPARATOR] + more[1..];
        assert cs == [cs[0]] + cs[1..];
      }
    }
  }

  lemma SplitAfterSeparator(s: Bytes)
    ensures Split([SEPARATOR] + s) == Split(s)
  {
  }

  lemma SplitPathString(cs: Path)
    requires Components(cs)
    ensures Split(PathString(cs)) == cs
  {
    if cs == [] {
      SplitFromConcat([], [], []);
      assert [] + [SEPARATOR] + [] == [SEPARATOR];
    } else {
      SplitJoined(cs);
    }
  }

  predicate Free(s: Bytes, lo: nat, hi: nat)
    requires hi <= |s|
  {
    forall x :: lo <= x < hi ==> s[x] != SEPARATOR
  }

  /** s[lo..hi] is a separator-free stretch that cannot be extended. */
  predicate MaximalRun(s: Bytes, lo: nat, hi: nat) {
    && lo < hi <= |s|
    && Free(s, lo, hi)
    && (lo == 0 || s[lo - 1] == SEPARATOR)
    && (hi == |s| || s[hi] == SEPARATOR)
  }

  /** The bounds of the runs from `i` on, when the current run began at `l`. */
  function RunsFrom(s: Bytes, l: nat, i: nat): seq<(nat, nat)>
    requires l <= i <= |s|
    decreases |s| - i
  {
    var run := if l < i then [(l, i)] else [];
    if i == |s| then run
    else if s[i] == SEPARATOR then run + RunsFrom(s, i + 1, i + 1)
    else RunsFrom(s, l, i + 1)
  }

  /** Runs that are maximal, from `l` on, and separated from each other. */
  predicate GoodRuns(s: Bytes, l: nat, rs: seq<(nat, nat)>) {
    && (forall k :: 0 <= k < |rs| ==> l <= rs[k].0 && MaximalRun(s, rs[k].0, rs[k].1))
    && (forall j, k :: 0 <= j < k < |rs| ==> rs[j].1 < rs[k].0)
  }

  lemma FirstRun(s: Bytes, l: nat, i: nat, more: seq<(nat, nat)>)
    requires l <= i <= |s| && Free(s, l, i) && (l == 0 || s[l - 1] == SEPARATOR) && (i == |s| || s[i] == SEPARATOR)
    requires GoodRuns(s, i + 1, more)
    ensures GoodRuns(s, l, (if l < i then [(l, i)] else []) + more)
  {
  }

  lemma NoRuns(s: Bytes, l: nat)
    ensures GoodRuns(s, l, [])
  {
  }

  lemma NothingYet(s: Bytes, i: nat)
    requires i <= |s|
    ensures Free(s, i, i)
  {
  }

  lemma OneMore(s: Bytes, l: nat, i: nat)
    requires i < |s| && Free(s, l, i) && s[i] != SEPARATOR
    ensures Free(s, l, i + 1)
  {
  }

  lemma {:induction false} RunsAreMaximal(s: Bytes, l: nat, i: nat)
    requires l <= i <= |s| && Free(s, l, i) && (l == 0 || s[l - 1] == SEPARATOR)
    ensures GoodRuns(s, l, RunsFrom(s, l, i))
    decreases |s| - i
  {
    hide GoodRuns;
    hide Free;
    hide MaximalRun;
    if i == |s| {
      NoRuns(s, i + 1);
      FirstRun(s, l, i, []);
      assert (if l < i then [(l, i)] else []) + [] == RunsFrom(s, l, i);
    } else if s[i] == SEPARATOR {
      NothingYet(s, i + 1);
      RunsAreMaximal(s, i + 1, i + 1);
      FirstRun(s, l, i, RunsFrom(s, i + 1, i + 1));
    } else {
      OneMore(s, l, i);
      RunsAreMaximal(s, l, i + 1);
    }
  }

  lemma {:induction false} RunsAreAll(s: Bytes, l: nat, i: nat, lo: nat, hi: nat)
    requires l <= i <= |s| && Free(s, l, i) && (l == 0 || s[l - 1] == SEPARATOR)
    requires MaximalRun(s, lo, hi) && (lo == l || i <= lo) && i <= hi
    ensures (lo, hi) in RunsFrom(s, l, i)
    decreases |s| - i
  {
    if i < |s| {
      if s[i] != SEPARATOR {
        RunsAreAll(s, l, i + 1, lo, hi);
      } else if i < lo {
        RunsAreAll(s, i + 1, i + 1, lo, hi);
      }
    }
  }

  lemma {:induction false} SplitFromRuns(s: Bytes, l: nat, i: nat)
    requires l <= i <= |s|
    ensures var rs := RunsFrom(s, l, i);
            && |SplitFrom(s[i..], s[l..i])| == |rs|
            && forall k :: 0 <= k < |rs| ==>
                             rs[k].0 <= rs[k].1 <= |s| && SplitFrom(s[i..], s[l..i])[k] == s[rs[k].0..rs[k].1]
    decreases |s| - i
  {
    if i < |s| {
      assert s[i..][1..] == s[i + 1..];
      if s[i] == SEPARATOR {
        SplitFromRuns(s, i + 1, i + 1);
        assert s[i + 1..i + 1] == [];
      } else {
        assert s[l..i + 1] == s[l..i] + [s[i]];
        SplitFromRuns(s, l, i + 1);
      }
    }
  }

  /** split returns exactly the maximal separator-free runs, from left to right. */
  lemma SplitIsMaximalRuns(s: Bytes)
    ensures var rs := RunsFrom(s, 0, 0);
            && |Split(s)| == |rs|
            && GoodRuns(s, 0, rs)
            && (forall k :: 0 <= k < |rs| ==> rs[k].0 <= rs[k].1 <= |s| && Split(s)[k] == s[rs[k].0..rs[k].1])
            && (forall lo: nat, hi: nat :: MaximalRun(s, lo, hi) ==> (lo, hi) in rs)
  {
    RunsAreMaximal(s, 0, 0);
    SplitFromRuns(s, 0, 0);
    assert s[0..] == s && s[0..0] == [];
    forall lo: nat, hi: nat | MaximalRun(s, lo, hi) ensures (lo, hi) in RunsFrom(s, 0, 0) {
      RunsAreAll(s, 0, 0, lo, hi);
    }
  }

  // ---------------------------------------------------------------------------
  // Resolution and simplification

  lemma {:induction false} ResolveNames(cs: seq<Bytes>, stack: Path)
    requires Components(cs) && Names(stack)
    ensures Names(Resolve(cs, stack))
  {
    if cs != [] {
      assert Component(cs[0]);
      ResolveNames(cs[1..], Push(stack, cs[0]));
    }
  }

  lemma {:induction false} ResolveConcat(a: seq<Bytes>, b: seq<Bytes>, stack: Path)
    ensures Resolve(a + b, stack) == Resolve(b, Resolve(a, stack))
  {
    if a == [] {
      assert a + b == b;
    } else {
      assert (a + b)[1..] == a[1..] + b;
      ResolveConcat(a[1..], b, Push(stack, a[0]));
    }
  }

  /** Names are only ever pushed. */
  lemma {:induction false} ResolveNamesOnly(cs: Path, stack: Path)
    requires Names(cs)
    ensures Resolve(cs, stack) == stack + cs
  {
    if cs == [] {
      assert stack + cs == stack;
    } else {
      assert Name(cs[0]);
      ResolveNamesOnly(cs[1..], Push(stack, cs[0]));
      assert stack + [cs[0]] + cs[1..] == stack + cs;
    }
  }

  lemma ComponentsAreNames(s: Bytes)
    ensures Names(ComponentsOf(s))
  {
    SplitFromComponents(s, []);
    ResolveNames(Split(s), []);
  }

  lemma NamesAreComponents(cs: Path)
    requires Names(cs)
    ensures Components(cs)
  {
  }

  /** A path of names is its own simplification, and splits into itself. */
  lemma PathStringIsSimple(cs: Path)
    requires Names(cs)
    ensures Split(PathString(cs)) == cs && ComponentsOf(PathString(cs)) == cs
              && Simplify(PathString(cs)) == PathString(cs)
  {
    NamesAreComponents(cs);
    SplitPathString(cs);
    ResolveNamesOnly(cs, []);
    assert [] + cs == cs;
  }

  lemma SimplifyIdempotent(s: Bytes)
    ensures Simplify(Simplify(s)) == Simplify(s)
    ensures Split(Simplify(s)) == ComponentsOf(s)
  {
    ComponentsAreNames(s);
    PathStringIsSimple(ComponentsOf(s));
  }

  lemma PathStringInjective(a: Path, b: Path)
    requires Names(a) && Names(b) && PathString(a) == PathString(b)
    ensures a == b
  {
    PathStringIsSimple(a);
    PathStringIsSimple(b);
  }

  /** Components of a concatenation: those of the first part, then the second resolved against them. */
  lemma ComponentsOfConcat(a: Bytes, b: Bytes)
    ensures ComponentsOf(a + [SEPARATOR] + b) == Resolve(Split(b), ComponentsOf(a))
  {
    SplitFromConcat(a, b, []);
    ResolveConcat(Split(a), Split(b), []);
  }

  /** Simplifying the front of a path first makes no difference. */
  lemma SimplifyFrontFirst(a: Bytes, b: Bytes)
    ensures Simplify(Simplify(a) + [SEPARATOR] + b) == Simplify(a + [SEPARATOR] + b)
  {
    ComponentsOfConcat(a, b);
    ComponentsOfConcat(Simplify(a), b);
    ComponentsAreNames(a);
    PathStringIsSimple(ComponentsOf(a));
  }

  lemma ComponentsOfThree(a: Bytes, c: Bytes, b: Bytes)
    ensures ComponentsOf(a + [SEPARATOR] + c + [SEPARATOR] + b) == Resolve(Split(b), Resolve(Split(c), ComponentsOf(a)))
  {
    ComponentsOfConcat(a, c);
    ComponentsOfConcat(a + [SEPARATOR] + c, b);
  }

  lemma ResolveOne(c: Bytes, stack: Path)
    requires Component(c)
    ensures Resolve(Split(c), stack) == Push(stack, c)
  {
    SplitFromRun(c, []);
    assert [] + c == c;
    assert [c][1..] == [];
    assert Resolve([c], stack) == Resolve([], Push(stack, c));
  }

  /** A single dot anywhere in a path makes no difference. */
  lemma DotStays(a: Bytes, b: Bytes)
    ensures Simplify(a + [SEPARATOR] + [DOT] + [SEPARATOR] + b) == Simplify(a + [SEPARATOR] + b)
  {
    ComponentsOfThree(a, [DOT], b);
    ComponentsOfConcat(a, b);
    ResolveOne([DOT], ComponentsOf(a));
  }

  /** Two dots take back exactly the one name before them. */
  lemma DotDotUndoesName(a: Bytes, n: Bytes, b: Bytes)
    requires Name(n)
    ensures Simplify(a + [SEPARATOR] + n + [SEPARATOR] + [DOT, DOT] + [SEPARATOR] + b) == Simplify(a + [SEPARATOR] + b)
  {
    var front := a + [SEPARATOR] + n;
    ComponentsOfThree(front, [DOT, DOT], b);
    ComponentsOfConcat(a, n);
    ComponentsOfConcat(a, b);
    ResolveOne(n, ComponentsOf(a));
    ResolveOne([DOT, DOT], ComponentsOf(front));
    assert ComponentsOf(front)[..|ComponentsOf(a)|] == ComponentsOf(a);
  }

  /** Two dots at the root stay at the root. */
  lemma DotDotAtRoot(b: Bytes)
    ensures Simplify([SEPARATOR] + [DOT, DOT] + [SEPARATOR] + b) == Simplify([SEPARATOR] + b)
  {
    ComponentsOfThree([], [DOT, DOT], b);
    assert [] + [SEPARATOR] + [DOT, DOT] + [SEPARATOR] + b == [SEPARATOR] + [DOT, DOT] + [SEPARATOR] + b;
    ComponentsOfConcat([], b);
    assert [] + [SEPARATOR] + b == [SEPARATOR] + b;
    ResolveOne([DOT, DOT], []);
  }

  /** Separators do not add up: an empty component makes no difference. */
  lemma SeparatorsMerge(a: Bytes, b: Bytes)
    ensures Simplify(a + [SEPARATOR] + [SEPARATOR] + b) == Simplify(a + [SEPARATOR] + b)
  {
    ComponentsOfConcat(a + [SEPARATOR], b);
    ComponentsOfConcat(a, b);
    ComponentsOfConcat(a, []);
    assert a + [SEPARATOR] + [] == a + [SEPARATOR];
  }

  /** Putting a path of names behind another appends its components. */
  lemma ComponentsAppend(a: Path, b: Path, tail: Bytes)
    requires Names(a) && Names(b) && Split(tail) == b
    ensures ComponentsOf(PathString(a) + [SEPARATOR] + tail) == a + b
  {
    PathStringIsSimple(a);
    ComponentsOfConcat(PathString(a), tail);
    ResolveNamesOnly(b, a);
  }

  lemma {:induction false} JoinedConcat(a: Path, b: Path)
    ensures Joined(a + b) == Joined(a) + Joined(b)
  {
    if a == [] {
      assert a + b == b;
    } else {
      assert (a + b)[1..] == a[1..] + b;
      JoinedConcat(a[1..], b);
    }
  }

  /** The part of a path past a prefix splits into the components past it. */
  lemma SuffixSplits(done: Path, rest: Path)
    requires Names(done + rest)
    ensures |PathString(done)| <= |PathString(done + rest)|
    ensures Split(PathString(done + rest)[|PathString(done)|..]) == rest
  {
    NamesAreComponents(done + rest);
    assert rest == (done + rest)[|done|..];
    assert Names(rest);
    NamesAreComponents(rest);
    JoinedConcat(done, rest);
    SplitJoined(rest);
    if done == [] {
      assert done + rest == rest;
      if rest != [] {
        SplitAfterSeparator(Joined(rest)[1..]);
        assert [SEPARATOR] + Joined(rest)[1..] == Joined(rest);
      }
    } else if rest == [] {
      assert done + rest == done;
    } else {
      assert Joined(done + rest)[|Joined(done)|..] == Joined(rest);
    }
  }

  // ---------------------------------------------------------------------------
  // The loops

  /** string_view::substr: clamped at the end. */
  function Substr(s: Bytes, l: nat, n: nat): Bytes
    requires l <= |s|
  {
    s[l..Min(l + n, |s|)]
  }

  /** The token between two 32-bit indices, if it is not empty. */
  function Token32(s: Bytes, l: nat, r: nat): seq<Bytes>
    requires l <= |s|
  {
    var token := Substr(s, l, (r - l) % TWO32);
    if token == [] then [] else [token]
  }

  /** Split from index `i` on, with both indices of the token kept in 32 bits. */
  function Split32From(s: Bytes, l: nat, i: nat): seq<Bytes>
    requires l <= i <= |s|
    decreases |s| - i
  {
    var token := Token32(s, l, i % TWO32);
    if i == |s| then token
    else if s[i] == SEPARATOR then token + Split32From(s, (i + 1) % TWO32, i + 1)
    else Split32From(s, l, i + 1)
  }

  /** Split as the loop does it, whatever the length of the string. */
  function Split32(s: Bytes): seq<Bytes> {
    Split32From(s, 0, 0)
  }

  function Simplify32(s: Bytes): Bytes {
    PathString(Resolve(Split32(s), []))
  }

  lemma Split32Unfolds(s: Bytes, l: nat, i: nat)
    requires l <= i <= |s|
    ensures Split32From(s, l, i)
            == if i == |s| then Token32(s, l, i % TWO32)
               else if s[i] == SEPARATOR then Token32(s, l, i % TWO32) + Split32From(s, (i + 1) % TWO32, i + 1)
               else Split32From(s, l, i + 1)
  {
    hide Token32;
  }

  lemma ShortToken(s: Bytes, l: nat, i: nat)
    requires l <= i <= |s| < TWO32
    ensures i % TWO32 == i && Token32(s, l, i) == if l == i then [] else [s[l..i]]
  {
    assert (i - l) % TWO32 == i - l;
  }

  lemma SplitStep(s: Bytes, l: nat, i: nat)
    requires l <= i <= |s|
    ensures var token := if l == i then [] else [s[l..i]];
            SplitFrom(s[i..], s[l..i])
            == if i == |s| then token
               else if s[i] == SEPARATOR then token + SplitFrom(s[i + 1..], s[i + 1..i + 1])
               else SplitFrom(s[i + 1..], s[l..i + 1])
  {
    if i < |s| {
      assert s[i..][1..] == s[i + 1..];
      assert s[i + 1..i + 1] == [];
      assert s[l..i] + [s[i]] == s[l..i + 1];
    }
  }

  lemma {:induction false} Split32FromShort(s: Bytes, l: nat, i: nat)
    requires l <= i <= |s| < TWO32
    ensures Split32From(s, l, i) == SplitFrom(s[i..], s[l..i])
    decreases |s| - i
  {
    hide Token32;
    hide Split32From;
    hide SplitFrom;
    ShortToken(s, l, i);
    Split32Unfolds(s, l, i);
    SplitStep(s, l, i);
    if i < |s| {
      NoWrap(i + 1);
      Split32FromShort(s, if s[i] == SEPARATOR then i + 1 else l, i + 1);
    }
  }

  lemma NoWrap(i: nat)
    requires i < TWO32
    ensures i % TWO32 == i
  {
  }

  lemma {:induction false} Split32FromRun(s: Bytes, i: nat)
    requires i <= |s| && SEPARATOR !in s
    ensures Split32From(s, 0, i) == Token32(s, 0, |s| % TWO32)
    decreases |s| - i
  {
    if i < |s| {
      Split32FromRun(s, i + 1);
    }
  }

  /** Of a name of 4 GiB or more only the length modulo 2^32 is left. */
  lemma Split32OfRun(s: Bytes)
    requires SEPARATOR !in s
    ensures Split32(s) == if |s| % TWO32 == 0 then [] else [s[..|s| % TWO32]]
    ensures Split(s) == if s == [] then [] else [s]
  {
    Split32FromRun(s, 0);
    SplitFromRun(s, []);
    assert [] + s == s;
  }

  /** A name of any length. */
  function Letters(n: nat): (s: Bytes)
    ensures |s| == n && SEPARATOR !in s && forall i :: 0 <= i < n ==> s[i] == 97
  {
    seq(n, _ => 97)
  }

  lemma LettersResolve(n: nat)
    ensures PathString(Resolve(if n == 0 then [] else [Letters(n)], [])) == [SEPARATOR] + Letters(n)
  {
    var c := Letters(n);
    if n > 0 {
      assert c[0] == 97;
      assert Push([], c) == [c];
      assert Joined([c]) == [SEPARATOR] + c + Joined([c][1..]);
    }
  }

  /**
   * The loop splits, and simplifies, every string of a given length correctly exactly when the
   * length is below 4 GiB: a single name of more is cut short.
   */
  lemma SplitRightExactly(n: nat)
    ensures (forall s: Bytes :: |s| == n ==> Split32(s) == Split(s)) <==> n < TWO32
    ensures (forall s: Bytes :: |s| == n ==> Simplify32(s) == Simplify(s)) <==> n < TWO32
  {
    if n < TWO32 {
      forall s: Bytes | |s| == n ensures Split32(s) == Split(s) {
        Split32FromShort(s, 0, 0);
        assert s[0..] == s;
      }
    } else {
      var s, cut := Letters(n), Letters(n % TWO32);
      Split32OfRun(s);
      assert s[..n % TWO32] == cut;
      assert Split32(s) != Split(s);
      LettersResolve(n);
      LettersResolve(n % TWO32);
      assert |Simplify32(s)| != |Simplify(s)|;
    }
  }

  /** A 32-bit index that moves on by one. */
  function Next32(r: nat): nat {
    (r + 1) % TWO32
  }

  lemma NextIndex(i: nat)
    ensures Next32(i % TWO32) == (i + 1) % TWO32 <= i + 1
  {
  }

  /** The two indices are 32-bit and wrap around. */
  method SplitString(s: Bytes) returns (tokens: seq<Bytes>)
    ensures tokens == Split32(s)
    ensures |s| < TWO32 ==> tokens == Split(s)
  {
    SplitRightExactly(|s|);
    hide Split;
    hide Split32From;
    hide Token32;
    hide Simplify;
    hide Simplify32;
    hide Next32;
    tokens := [];
    var l, r := 0, 0;
    for i := 0 to |s|
      invariant r == i % TWO32 && 0 <= l <= i
      invariant Split32(s) == tokens + Split32From(s, l, i)
    {
      Split32Unfolds(s, l, i);
      NextIndex(i);
      if s[i] != SEPARATOR {
        r := Next32(r);
      } else {
        tokens := TakeToken(s, l, r, tokens);
        r := Next32(r);
        l := r;
      }
    }
    Split32Unfolds(s, l, |s|);
    tokens := TakeToken(s, l, r, tokens);
  }

  /** The token that ends at the right index, if there is one. */
  method TakeToken(s: Bytes, l: nat, r: nat, tokens: seq<Bytes>) returns (tokens': seq<Bytes>)
    requires l <= |s|
    ensures tokens' == tokens + Token32(s, l, r)
  {
    tokens' := tokens;
    if (r - l) % TWO32 > 0 {
      var token := Substr(s, l, (r - l) % TWO32);
      if token != [] {
        tokens' := tokens + [token];
      }
    }
  }

  lemma JoinedLast(cs: Path, c: Bytes)
    ensures Joined(cs + [c]) == Joined(cs) + [SEPARATOR] + c
  {
    JoinedConcat(cs, [c]);
    assert Joined([c]) == [SEPARATOR] + c + Joined([c][1..]);
  }

  /** Appends each component behind a separator. */
  method Join(cs: Path) returns (joined: Bytes)
    ensures joined == Joined(cs)
  {
    joined := [];
    for i := 0 to |cs|
      invariant joined == Joined(cs[..i])
    {
      JoinedLast(cs[..i], cs[i]);
      assert cs[..i] + [cs[i]] == cs[..i + 1];
      joined := joined + [SEPARATOR] + cs[i];
    }
    assert cs[..|cs|] == cs;
  }

  method ResolveStack(pathStack: seq<Bytes>) returns (stack: Path)
    ensures stack == Resolve(pathStack, [])
  {
    stack := [];
    for i := 0 to |pathStack|
      invariant Resolve(pathStack, []) == Resolve(pathStack[i..], stack)
    {
      var d := pathStack[i];
      assert pathStack[i..][1..] == pathStack[i + 1..];
      if d == [] || d == [DOT] {
        continue;
      }
      if d == [DOT, DOT] {
        if stack != [] {
          stack := stack[..|stack| - 1];
        }
      } else {
        stack := stack + [d];
      }
    }
  }

  method SimplifyPath(path: Bytes) returns (simple: Bytes)
    ensures simple == Simplify32(path)
    ensures |path| < TWO32 ==> simple == Simplify(path)
  {
    SplitRightExactly(|path|);
    var pathStack := SplitString(path);
    var stack := ResolveStack(pathStack);
    if stack == [] {
      return [SEPARATOR];
    }
    simple := Join(stack);
  }

  /** Walks from a path up to the root: the path, its parent, ..., a lone separator. */
  class ReverseStringPathIterator {
    var chunks: seq<Bytes>
    var valid: bool

    constructor (path: Bytes)
      ensures valid && chunks == Split32(path)
      ensures |path| < TWO32 ==> chunks == Split(path)
    {
      chunks := [];
      valid := true;
      new;
      chunks := SplitString(path);
    }

    method Next()
      modifies this
      ensures old(valid) && old(chunks) != [] ==> valid && chunks == old(chunks)[..|old(chunks)| - 1]
      ensures !(old(valid) && old(chunks) != []) ==> !valid && chunks == old(chunks)
    {
      if chunks == [] || !valid {
        valid := false;
        return;
      }
      chunks := chunks[..|chunks| - 1];
    }

    method Current() returns (path: Bytes)
      ensures path == PathString(chunks)
    {
      path := Join(chunks);
      if path == [] {
        path := [SEPARATOR];
      }
    }
  }
}
