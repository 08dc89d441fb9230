// Little-endian integers and length-prefixed strings: the byte form in which every
// record and the whole index table reach the disk (lib/util/Serialization.hpp).

module Wrappers {

  datatype Option<+T> = None | Some(value: T)

  /** The codes of util::Status; its messages are not modelled. */
  datatype Status = Ok | IOError | InvalidArgument | NotFound | Fatal | InvalidOperation

  function Min(a: nat, b: nat): nat {
    if a < b then a else b
  }
}

module Serialization {

  type byte = x: int | 0 <= x < 256
  type Bytes = seq<byte>

  const TWO8: nat := 0x100
  const TWO16: nat := 0x1_0000
  const TWO32: nat := 0x1_0000_0000
  const TWO64: nat := 0x1_0000_0000_0000_0000

  /**
   * What a parser makes of a byte string: a value and the bytes it did not touch, or
   * Short when the input ends too early. A stream read past its end leaves its target
   * indeterminate in the source, so Short carries nothing.
   */
  datatype Parsed<+T> = Got(value: T, rest: Bytes) | Short {
    predicate IsFailure() {
      Short?
    }

    function PropagateFailure<U>(): Parsed<U>
      requires Short?
    {
      Short
    }

    function Extract(): (T, Bytes)
      requires Got?
    {
      (value, rest)
    }
  }

  /** The same outcome, with more bytes after what the parser consumed. */
  function Longer<T>(p: Parsed<T>, tail: Bytes): Parsed<T> {
    match p
    case Got(v, rest) => Got(v, rest + tail)
    case Short => Short
  }

  function Pow256(n: nat): nat {
    if n == 0 then 1 else 256 * Pow256(n - 1)
  }

  /** The low `width` bytes of `v`, least significant first. */
  function PrintUInt(v: nat, width: nat): (b: Bytes)
    ensures |b| == width
  {
    if width == 0 then [] else [v % 256] + PrintUInt(v / 256, width - 1)
  }

  function UIntValue(b: Bytes): nat {
    if b == [] then 0 else b[0] + 256 * UIntValue(b[1..])
  }

  function ParseUInt(b: Bytes, width: nat): Parsed<nat> {
    if |b| < width then Short else Got(UIntValue(b[..width]), b[width..])
  }

  /** Two's complement of `v` in a word with `modulus` values, and back. */
  function ToUnsigned(v: int, modulus: nat): nat
    requires modulus > 0
  {
    v % modulus
  }

  function ToSigned(n: nat, modulus: nat): int {
    if 2 * n >= modulus then n - modulus else n
  }

  function PrintString(s: Bytes): Bytes {
    PrintUInt(|s|, 8) + s
  }

  function ParseString(b: Bytes): Parsed<Bytes> {
    var (n, rest) :- ParseUInt(b, 8);
    if |rest| < n then Short else Got(rest[..n], rest[n..])
  }

  // Concatenations, regrouped.

  lemma RegroupTwo(a: Bytes, b: Bytes, c: Bytes)
    ensures a + b + c == a + (b + c)
  {
  }

  lemma Regroup(a: Bytes, b: Bytes, c: Bytes, d: Bytes)
    ensures a + b + c + d == a + (b + c + d)
  {
  }

  lemma RegroupRight(a: Bytes, b: Bytes, c: Bytes, d: Bytes)
    ensures a + b + c + d == a + (b + (c + d))
  {
  }

  lemma Pow256Values()
    ensures Pow256(1) == TWO8 && Pow256(2) == TWO16 && Pow256(4) == TWO32 && Pow256(8) == TWO64
  {
  }

  lemma Pow256Positive(n: nat)
    ensures Pow256(n) > 0
  {
  }

  lemma DivTwice(v: nat, a: nat)
    requires a > 0
    ensures v / 256 / a == v / (256 * a)
  {
    var q, r := v / 256, v % 256;
    var s, t := q / a, q % a;
    assert v == 256 * a * s + (256 * t + r);
    assert 256 * t + r < 256 * a;
    DivUnique(v, 256 * a, s, 256 * t + r);
  }

  lemma DivUnique(v: nat, d: nat, q: nat, r: nat)
    requires v == d * q + r && r < d
    ensures v / d == q
  {
    assert v == d * (v / d) + v % d;
    assert d * (v / d - q) == d * (v / d) - d * q;
    AtLeastOnce(d, v / d - q);
  }

  lemma AtLeastOnce(d: nat, k: int)
    ensures k >= 1 ==> d * k >= d
    ensures k <= -1 ==> d * k <= -(d as int)
  {
    if k >= 1 {
      assert d * k == d + d * (k - 1);
    } else {
      assert d * k == -(d as int) + d * (k + 1);
    }
  }

  /** Byte by byte, the least significant first. */
  lemma {:induction false} UIntLayout(v: nat, width: nat, i: nat)
    requires i < width
    ensures Pow256(i) > 0 && PrintUInt(v, width)[i] == v / Pow256(i) % 256
  {
    Pow256Positive(i);
    if i > 0 {
      UIntLayout(v / 256, width - 1, i - 1);
      DivTwice(v, Pow256(i - 1));
    }
  }

  /** A 64-bit length, then the bytes. */
  lemma StringLayout(s: Bytes)
    ensures |PrintString(s)| == 8 + |s| && PrintString(s)[8..] == s
    ensures forall i: nat :: i < 8 ==> PrintString(s)[i] == PrintUInt(|s|, 8)[i]
  {
  }

  lemma {:induction false} UIntRoundTrip(v: nat, width: nat)
    requires v < Pow256(width)
    ensures UIntValue(PrintUInt(v, width)) == v
  {
    if width > 0 {
      UIntRoundTrip(v / 256, width - 1);
      assert PrintUInt(v, width)[1..] == PrintUInt(v / 256, width - 1);
    }
  }

  lemma {:induction false} UIntValueBounded(b: Bytes)
    ensures UIntValue(b) < Pow256(|b|)
  {
    if b != [] {
      UIntValueBounded(b[1..]);
    }
  }

  /** Every byte string is the little-endian form of the number it denotes. */
  lemma {:induction false} UIntReprint(b: Bytes)
    ensures PrintUInt(UIntValue(b), |b|) == b
  {
    if b != [] {
      UIntReprint(b[1..]);
      var v := UIntValue(b[1..]);
      assert (b[0] + 256 * v) % 256 == b[0] && (b[0] + 256 * v) / 256 == v;
      assert b == [b[0]] + b[1..];
    }
  }

  lemma ParsePrintUInt(v: nat, width: nat, tail: Bytes)
    requires v < Pow256(width)
    ensures ParseUInt(PrintUInt(v, width) + tail, width) == Got(v, tail)
  {
  }

  lemma SignedRoundTrip(v: int, modulus: nat)
    requires modulus in {TWO8, TWO16, TWO32, TWO64}
    requires -(modulus as int) <= 2 * v < modulus
    ensures ToSigned(ToUnsigned(v, modulus), modulus) == v && ToUnsigned(v, modulus) < modulus
  {
  }

  lemma ParsePrintString(s: Bytes, tail: Bytes)
    requires |s| < TWO64
    ensures ParseString(PrintString(s) + tail) == Got(s, tail)
  {
    Pow256Values();
    ParsePrintUInt(|s|, 8, s + tail);
    assert PrintString(s) + tail == PrintUInt(|s|, 8) + (s + tail);
  }

  // A parser that succeeded does not notice bytes added behind its input.

  lemma ParseUIntLonger(b: Bytes, width: nat, tail: Bytes)
    requires ParseUInt(b, width).Got?
    ensures ParseUInt(b + tail, width) == Longer(ParseUInt(b, width), tail)
  {
    assert (b + tail)[..width] == b[..width];
    assert (b + tail)[width..] == b[width..] + tail;
  }

  lemma ParseStringLonger(b: Bytes, tail: Bytes)
    requires ParseString(b).Got?
    ensures ParseString(b + tail) == Longer(ParseString(b), tail)
  {
    ParseUIntLonger(b, 8, tail);
    var Got(n, rest) := ParseUInt(b, 8);
    assert (rest + tail)[..n] == rest[..n];
    assert (rest + tail)[n..] == rest[n..] + tail;
  }

  /** The output side: every operator appends to the stream. */
  class Serializer {
    var out: Bytes

    constructor ()
      ensures out == []
    {
      out := [];
    }

    method PutUInt(v: nat, width: nat)
      modifies this
      ensures out == old(out) + PrintUInt(v, width)
    {
      out := out + PrintUInt(v, width);
    }

    method PutString(s: Bytes)
      modifies this
      ensures out == old(out) + PrintString(s)
    {
      PutUInt(|s|, 8);
      out := out + s;
      assert out == old(out) + PrintString(s);
    }
  }

  /** The input side: every operator consumes from the front, until a read comes up short. */
  class Deserializer {
    var rest: Bytes
    var good: bool

    constructor (b: Bytes)
      ensures rest == b && good
    {
      rest := b;
      good := true;
    }

    method GetUInt(width: nat) returns (v: nat)
      modifies this
      ensures good <==> old(good) && ParseUInt(old(rest), width).Got?
      ensures good ==> ParseUInt(old(rest), width) == Got(v, rest)
    {
      v := 0;
      if good && width <= |rest| {
        v := UIntValue(rest[..width]);
        rest := rest[width..];
      } else {
        good := false;
      }
    }

    method GetString() returns (s: Bytes)
      modifies this
      ensures good <==> old(good) && ParseString(old(rest)).Got?
      ensures good ==> ParseString(old(rest)) == Got(s, rest)
    {
      s := [];
      var n := GetUInt(8);
      if good && n <= |rest| {
        s := rest[..n];
        rest := rest[n..];
      } else {
        good := false;
      }
    }
  }
}
