// Property values: a tagged union of twelve alternatives (lib/vfs/Property.hpp) and its
// byte form (lib/vfs/Property.cpp).

module Properties {
  import opened Serialization

  /** Floating-point alternatives are kept as bit patterns. */
  datatype Property =
    | U8(u8: nat) | I8(s8: int)
    | U16(u16: nat) | I16(s16: int)
    | U32(u32: nat) | I32(s32: int)
    | U64(u64: nat) | I64(s64: int)
    | Float(fbits: nat) | Double(dbits: nat)
    | Text(text: Bytes) | Blob(blob: Bytes)

  /** A value the alternative's C++ type can hold. */
  predicate Fits(p: Property) {
    match p
    case U8(n) => n < TWO8
    case I8(v) => -(TWO8 as int) <= 2 * v < TWO8
    case U16(n) => n < TWO16
    case I16(v) => -(TWO16 as int) <= 2 * v < TWO16
    case U32(n) => n < TWO32
    case I32(v) => -(TWO32 as int) <= 2 * v < TWO32
    case U64(n) => n < TWO64
    case I64(v) => -(TWO64 as int) <= 2 * v < TWO64
    case Float(bits) => bits < TWO32
    case Double(bits) => bits < TWO64
    case Text(s) => |s| < TWO64
    case Blob(b) => |b| < TWO64
  }

  /** A value of the right width; only the length of a text or blob may be too large to print. */
  predicate Typed(p: Property) {
    p.Text? || p.Blob? || Fits(p)
  }

  const ALTERNATIVES: nat := 12

  function Tag(p: Property): nat {
    match p
    case U8(_) => 0
    case I8(_) => 1
    case U16(_) => 2
    case I16(_) => 3
    case U32(_) => 4
    case I32(_) => 5
    case U64(_) => 6
    case I64(_) => 7
    case Float(_) => 8
    case Double(_) => 9
    case Text(_) => 10
    case Blob(_) => 11
  }

  /** Bytes a fixed-size alternative takes. Both floating-point types travel in eight. */
  function PayloadWidth(tag: nat): nat
    requires tag < 10
  {
    if tag < 2 then 1 else if tag < 4 then 2 else if tag < 6 then 4 else 8
  }

  /** The number a fixed-size alternative is stored as. */
  function ToWord(p: Property): nat
    requires !p.Text? && !p.Blob?
  {
    match p
    case U8(n) => n
    case I8(v) => ToUnsigned(v, TWO8)
    case U16(n) => n
    case I16(v) => ToUnsigned(v, TWO16)
    case U32(n) => n
    case I32(v) => ToUnsigned(v, TWO32)
    case U64(n) => n
    case I64(v) => ToUnsigned(v, TWO64)
    case Float(bits) => bits
    case Double(bits) => bits
  }

  /** The value alone, without its tag. */
  function PrintPayload(p: Property): Bytes {
    match p
    case Text(s) => PrintString(s)
    case Blob(b) => PrintString(b)
    case _ => PrintUInt(ToWord(p), PayloadWidth(Tag(p)))
  }

  function PrintProperty(p: Property): Bytes
  {
    PrintUInt(Tag(p), 2) + PrintPayload(p)
  }

  /** The fixed-size alternative with this tag and this little-endian value. */
  function FromWord(tag: nat, n: nat): Property
    requires tag < 10
  {
    if tag == 0 then U8(n)
    else if tag == 1 then I8(ToSigned(n, TWO8))
    else if tag == 2 then U16(n)
    else if tag == 3 then I16(ToSigned(n, TWO16))
    else if tag == 4 then U32(n)
    else if tag == 5 then I32(ToSigned(n, TWO32))
    else if tag == 6 then U64(n)
    else if tag == 7 then I64(ToSigned(n, TWO64))
    else if tag == 8 then Float(n % TWO32)
    else Double(n)
  }

  function ParsePayload(tag: nat, b: Bytes): Parsed<Property>
    requires tag < ALTERNATIVES
  {
    if tag < 10 then
      var (n, rest) :- ParseUInt(b, PayloadWidth(tag));
      Got(FromWord(tag, n), rest)
    else
      var (s, rest) :- ParseString(b);
      Got(if tag == 10 then Text(s) else Blob(s), rest)
  }

  /** An unknown tag matches no alternative: the default value stays and nothing more is read. */
  function ParseProperty(b: Bytes): Parsed<Property> {
    var (tag, rest) :- ParseUInt(b, 2);
    if tag < ALTERNATIVES then ParsePayload(tag, rest) else Got(U8(0), rest)
  }

  /** The tag of each alternative in two bytes, and the width and form of its value. */
  lemma PropertyLayout(p: Property)
    ensures PrintProperty(p)
            == match p
               case U8(n) => [0, 0] + PrintUInt(n, 1)
               case I8(v) => [1, 0] + PrintUInt(v % TWO8, 1)
               case U16(n) => [2, 0] + PrintUInt(n, 2)
               case I16(v) => [3, 0] + PrintUInt(v % TWO16, 2)
               case U32(n) => [4, 0] + PrintUInt(n, 4)
               case I32(v) => [5, 0] + PrintUInt(v % TWO32, 4)
               case U64(n) => [6, 0] + PrintUInt(n, 8)
               case I64(v) => [7, 0] + PrintUInt(v % TWO64, 8)
               case Float(bits) => [8, 0] + PrintUInt(bits, 8)
               case Double(bits) => [9, 0] + PrintUInt(bits, 8)
               case Text(s) => [10, 0] + (PrintUInt(|s|, 8) + s)
               case Blob(b) => [11, 0] + (PrintUInt(|b|, 8) + b)
  {
    TagBytes(Tag(p));
    hide PrintUInt;
  }

  lemma TagBytes(tag: nat)
    requires tag < 256
    ensures PrintUInt(tag, 2) == [tag, 0]
  {
    assert PrintUInt(tag, 2) == [tag % 256] + PrintUInt(tag / 256, 1);
    assert PrintUInt(0, 1) == [0] + PrintUInt(0, 0);
  }

  lemma WordRoundTrip(p: Property)
    requires Fits(p) && !p.Text? && !p.Blob?
    ensures ToWord(p) < Pow256(PayloadWidth(Tag(p))) && FromWord(Tag(p), ToWord(p)) == p
  {
    Pow256Values();
    match p {
      case I8(v) => SignedRoundTrip(v, TWO8);
      case I16(v) => SignedRoundTrip(v, TWO16);
      case I32(v) => SignedRoundTrip(v, TWO32);
      case I64(v) => SignedRoundTrip(v, TWO64);
      case _ =>
    }
  }

  lemma ParsePrintPayload(p: Property, tail: Bytes)
    requires Fits(p)
    ensures ParsePayload(Tag(p), PrintPayload(p) + tail) == Got(p, tail)
  {
    match p {
      case Text(s) => ParsePrintString(s, tail);
      case Blob(b) => ParsePrintString(b, tail);
      case _ =>
        WordRoundTrip(p);
        ParsePrintUInt(ToWord(p), PayloadWidth(Tag(p)), tail);
        hide ToWord;
        hide FromWord;
        hide Fits;
    }
  }

  lemma ParsePrintProperty(p: Property, tail: Bytes)
    requires Fits(p)
    ensures ParseProperty(PrintProperty(p) + tail) == Got(p, tail)
  {
    Pow256Values();
    ParsePrintUInt(Tag(p), 2, PrintPayload(p) + tail);
    assert PrintProperty(p) + tail == PrintUInt(Tag(p), 2) + (PrintPayload(p) + tail);
    ParsePrintPayload(p, tail);
  }

  /** A tag of no alternative is read, and nothing behind it; the value stays the default. */
  lemma UnknownTag(tag: nat, rest: Bytes)
    requires ALTERNATIVES <= tag < TWO16
    ensures ParseProperty(PrintUInt(tag, 2) + rest) == Got(U8(0), rest)
  {
    Pow256Values();
    ParsePrintUInt(tag, 2, rest);
  }

  lemma ParsePropertyLonger(b: Bytes, tail: Bytes)
    requires ParseProperty(b).Got?
    ensures ParseProperty(b + tail) == Longer(ParseProperty(b), tail)
  {
    ParseUIntLonger(b, 2, tail);
    var Got(tag, rest) := ParseUInt(b, 2);
    if tag < 10 {
      ParseUIntLonger(rest, PayloadWidth(tag), tail);
    } else if tag < ALTERNATIVES {
      ParseStringLonger(rest, tail);
    }
  }

  /** What the parser returns is always a value of the alternative's C++ type. */
  lemma ParsedPropertyFits(b: Bytes)
    requires ParseProperty(b).Got?
    ensures Fits(ParseProperty(b).value)
  {
    Pow256Values();
    var Got(tag, rest) := ParseUInt(b, 2);
    if tag < 10 {
      UIntValueBounded(rest[..PayloadWidth(tag)]);
    } else if tag < ALTERNATIVES {
      UIntValueBounded(rest[..8]);
    }
  }

  method PutPayload(s: Serializer, p: Property)
    modifies s
    ensures s.out == old(s.out) + PrintPayload(p)
  {
    match p {
      case Text(t) => s.PutString(t);
      case Blob(b) => s.PutString(b);
      case _ => s.PutUInt(ToWord(p), PayloadWidth(Tag(p)));
    }
  }

  method PutProperty(s: Serializer, p: Property)
    modifies s
    ensures s.out == old(s.out) + PrintProperty(p)
  {
    hide PrintPayload;
    hide Tag;
    s.PutUInt(Tag(p), 2);
    PutPayload(s, p);
  }

  method GetProperty(d: Deserializer) returns (p: Property)
    modifies d
    ensures d.good <==> old(d.good) && ParseProperty(old(d.rest)).Got?
    ensures d.good ==> ParseProperty(old(d.rest)) == Got(p, d.rest)
  {
    p := U8(0);
    var tag := d.GetUInt(2);
    if tag < 10 {
      var n := d.GetUInt(PayloadWidth(tag));
      p := FromWord(tag, n);
    } else if tag < ALTERNATIVES {
      var s := d.GetString();
      p := if tag == 10 then Text(s) else Blob(s);
    }
  }
}
