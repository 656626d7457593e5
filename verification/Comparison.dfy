/** Comparisons of column values, by the type of the column. */
module Comparison {
  import opened Common
  import opened Bytes
  import opened RowFormat
  import opened StringStore

  /** The integer types. */
  predicate Integer(t: FieldType) {
    t == Int32 || t == UInt32 || t == UInt16 || t == Bool || t == Byte
  }

  /** The types whose values are strings. */
  predicate Textual(t: FieldType) {
    t == Str || t == Chars
  }

  /** A value as the C code reads it through a pointer of the column's type. */
  function Decode(t: FieldType, b: seq<byte>): int
    requires Integer(t) && |b| == TypeSize(t)
  {
    match t
    case Int32 => if U32(b) < 0x8000_0000 then U32(b) else U32(b) - 0x1_0000_0000
    case UInt32 => U32(b)
    case UInt16 => U16(b)
    case Byte => if Num(b[0]) < 128 then Num(b[0]) else Num(b[0]) - 256
    case _ => Num(b[0])
  }

  function Power2(n: nat): (p: nat)
    ensures p > 0
  {
    if n == 0 then 1 else 2 * Power2(n - 1)
  }

  /** The pattern of a single-precision number is not a number. */
  predicate NotANumber(u: nat) {
    u % 0x8000_0000 > 0x7F80_0000
  }

  /** The size of a single-precision number in units of 2 to the power -149; infinity comes after all finite ones. */
  function Magnitude(u: nat): nat
    requires u < 0x8000_0000
  {
    var exponent, fraction := u / 0x80_0000, u % 0x80_0000;
    if exponent == 0 then fraction else Times(0x80_0000 + fraction, Power2(exponent - 1))
  }

  /** Both zeros are 0. */
  function FloatValue(u: nat): int
    requires u < 0x1_0000_0000
  {
    var m: int := Magnitude(u % 0x8000_0000);
    if u < 0x8000_0000 then m else -m
  }

  predicate FloatLess(a: seq<byte>, b: seq<byte>)
    requires |a| == 4 && |b| == 4
  {
    !NotANumber(U32(a)) && !NotANumber(U32(b)) && FloatValue(U32(a)) < FloatValue(U32(b))
  }

  /** The values that a column of the type can be compared on. */
  predicate Comparable(t: FieldType, x: Value) {
    if Textual(t) then x.Text? else x.Raw? && |x.bytes| == TypeSize(t)
  }

  /** The first operand is less than the second; strings are not ordered here. */
  predicate Below(t: FieldType, a: Value, b: Value)
    requires Comparable(t, a) && Comparable(t, b) && !Textual(t)
  {
    if t == Float then FloatLess(a.bytes, b.bytes) else Decode(t, a.bytes) < Decode(t, b.bytes)
  }

  /** `compare_field_value`; for strings only whether the result is 0 is meant. */
  function Compare(t: FieldType, a: Value, b: Value): int
    requires Comparable(t, a) && Comparable(t, b)
  {
    if Textual(t) then if a == b then 0 else 1
    else if Below(t, b, a) then -1
    else if Below(t, a, b) then 1 else 0
  }

  datatype Predicate = Equals | NotEquals | Greater | Less | GreaterEq | LessEq

  /** Strings are compared for equality only. */
  predicate Meant(p: Predicate, t: FieldType) {
    Textual(t) ==> p == Equals || p == NotEquals
  }

  /** The predicates, in terms of the comparison. */
  predicate Test(p: Predicate, t: FieldType, a: Value, b: Value)
    requires Comparable(t, a) && Comparable(t, b) && Meant(p, t)
  {
    match p
    case Equals => Compare(t, a, b) == 0
    case NotEquals => Compare(t, a, b) != 0
    case Greater => Compare(t, a, b) == -1
    case Less => Compare(t, a, b) == 1
    case GreaterEq => Compare(t, a, b) <= 0
    case LessEq => Compare(t, a, b) >= 0
  }

  // ---------------------------------------------------------------- numbers in memory

  /** The numbers of the integer types; truth values are bytes without a sign. */
  predicate InRange(t: FieldType, x: int)
    requires Integer(t)
  {
    match t
    case Int32 => -0x8000_0000 <= x < 0x8000_0000
    case UInt32 => 0 <= x < 0x1_0000_0000
    case UInt16 => 0 <= x < 0x1_0000
    case Byte => -128 <= x < 128
    case _ => 0 <= x < 256
  }

  /** A number as the program has it in memory: low byte first, negative numbers as two's complements. */
  function Encode(t: FieldType, x: int): (b: seq<byte>)
    requires Integer(t) && InRange(t, x)
    ensures |b| == TypeSize(t)
  {
    if t == Int32 then EncodeU32(x % 0x1_0000_0000)
    else if t == UInt32 then EncodeU32(x)
    else if t == UInt16 then EncodeU16(x)
    else [Small(x % 256)]
  }

  /** What is read is the number that was written. */
  lemma DecodesEncoded(t: FieldType, x: int)
    requires Integer(t) && InRange(t, x)
    ensures Decode(t, Encode(t, x)) == x
  {
    hide U32, U16, EncodeU32, EncodeU16, Small, Num;
  }

  /** Every value of the type is some number. */
  lemma EncodesDecoded(t: FieldType, b: seq<byte>)
    requires Integer(t) && |b| == TypeSize(t)
    ensures InRange(t, Decode(t, b)) && Encode(t, Decode(t, b)) == b
  {
    InTheRange(t, b);
    DecodesEncoded(t, Decode(t, b));
    DecodeOnce(t, b, Encode(t, Decode(t, b)));
  }

  lemma InTheRange(t: FieldType, b: seq<byte>)
    requires Integer(t) && |b| == TypeSize(t)
    ensures InRange(t, Decode(t, b))
  {
    hide Num;
  }

  /** The relation that a predicate stands for. */
  predicate Related(p: Predicate, x: int, y: int) {
    match p
    case Equals => x == y
    case NotEquals => x != y
    case Greater => x > y
    case Less => x < y
    case GreaterEq => x >= y
    case LessEq => x <= y
  }

  /** On integers, signed or not, the predicates are the relations of the numbers. */
  lemma IntegersCompare(p: Predicate, t: FieldType, a: Value, b: Value, x: int, y: int)
    requires Integer(t) && InRange(t, x) && InRange(t, y) && a == Raw(Encode(t, x)) && b == Raw(Encode(t, y))
    ensures Comparable(t, a) && Comparable(t, b) && Meant(p, t)
    ensures Test(p, t, a, b) <==> Related(p, x, y)
  {
    hide *;
    IntegersComparable(p, t, a, b);
    DecodesEncoded(t, x);
    DecodesEncoded(t, y);
    PredicateRelates(p, t, a, b);
  }

  lemma IntegersComparable(p: Predicate, t: FieldType, a: Value, b: Value)
    requires Integer(t) && a.Raw? && b.Raw? && |a.bytes| == |b.bytes| == TypeSize(t)
    ensures Comparable(t, a) && Comparable(t, b) && Meant(p, t)
  {
  }

  lemma PredicateRelates(p: Predicate, t: FieldType, a: Value, b: Value)
    requires Integer(t) && Comparable(t, a) && Comparable(t, b)
    ensures Test(p, t, a, b) <==> Related(p, Decode(t, a.bytes), Decode(t, b.bytes))
  {
    hide Decode, FloatLess;
    PredicatesMean(t, a, b);
    if Decode(t, a.bytes) == Decode(t, b.bytes) {
      DecodeOnce(t, a.bytes, b.bytes);
    }
  }

  /** On strings, equality and inequality of the values. */
  lemma StringsCompare(t: FieldType, x: seq<byte>, y: seq<byte>)
    requires Textual(t)
    ensures Test(Equals, t, Text(x), Text(y)) <==> x == y
    ensures Test(NotEquals, t, Text(x), Text(y)) <==> x != y
  {
    hide Below;
  }

  /** Zero is 0, and a pattern with a sign stands for the negative number. */
  lemma FloatSigns(u: nat)
    requires u < 0x8000_0000
    ensures FloatValue(0) == 0 && FloatValue(u) >= 0 && FloatValue(0x8000_0000 + u) == -FloatValue(u)
  {
    hide Power2;
  }

  /** No number is what has all bits of the exponent set and some of the fraction; with none of those it is infinity. */
  lemma NotNumbers(u: nat)
    requires u < 0x1_0000_0000
    ensures NotANumber(u) <==> u / 0x80_0000 % 0x100 == 0xFF && u % 0x80_0000 != 0
  {
    var s, e, f := u / 0x8000_0000, u / 0x80_0000 % 0x100, u % 0x80_0000;
    assert u == 0x8000_0000 * s + 0x80_0000 * e + f;
  }

  /** The exponent and the fraction of the next pattern. */
  lemma NextFields(u: nat)
    ensures var e, f := u / 0x80_0000, u % 0x80_0000;
      if f + 1 < 0x80_0000 then (u + 1) / 0x80_0000 == e && (u + 1) % 0x80_0000 == f + 1
      else (u + 1) / 0x80_0000 == e + 1 && (u + 1) % 0x80_0000 == 0
  {
  }

  /** The next pattern is the next number: up by one unit, which doubles with every exponent from 2 on. */
  lemma FloatSteps(u: nat)
    requires u + 1 < 0x8000_0000
    ensures var e := u / 0x80_0000; FloatValue(u + 1) == FloatValue(u) + Power2(if e == 0 then 0 else e - 1)
  {
    hide Times;
    NextFields(u);
    Unsigned(u);
    Unsigned(u + 1);
    var e, f := u / 0x80_0000, u % 0x80_0000;
    if e > 0 {
      Step(0x80_0000 + f, Power2(e - 1));
    } else {
      Once(0x80_0000);
    }
  }

  lemma Once(n: nat)
    ensures Times(n, 1) == n
  {
  }

  lemma Unsigned(u: nat)
    requires u < 0x8000_0000
    ensures FloatValue(u) == Magnitude(u)
  {
    hide Magnitude;
  }

  lemma Step(a: nat, k: nat)
    ensures Times(a + 1, k) == Times(a, k) + k
    ensures a + 1 == 0x100_0000 ==> Times(0x80_0000, 2 * k) == Times(a + 1, k)
  {
  }

  // ---------------------------------------------------------------- meaning

  /** On integers the predicates are the usual relations of the numbers read. */
  lemma PredicatesMean(t: FieldType, a: Value, b: Value)
    requires Integer(t) && Comparable(t, a) && Comparable(t, b)
    ensures Test(Equals, t, a, b) <==> a == b
    ensures Test(NotEquals, t, a, b) <==> a != b
    ensures Test(Less, t, a, b) <==> Decode(t, a.bytes) < Decode(t, b.bytes)
    ensures Test(Greater, t, a, b) <==> Decode(t, a.bytes) > Decode(t, b.bytes)
    ensures Test(LessEq, t, a, b) <==> Decode(t, a.bytes) <= Decode(t, b.bytes)
    ensures Test(GreaterEq, t, a, b) <==> Decode(t, a.bytes) >= Decode(t, b.bytes)
  {
    hide Decode, FloatLess;
    if Decode(t, a.bytes) == Decode(t, b.bytes) {
      DecodeOnce(t, a.bytes, b.bytes);
    }
  }

  /**
   * On floats they are the relations of the numbers read, where "not greater" stands for "less
   * or equal": a pattern that is no number is equal to everything.
   */
  lemma FloatPredicatesMean(a: Value, b: Value)
    requires Comparable(Float, a) && Comparable(Float, b)
    ensures var x, y := U32(a.bytes), U32(b.bytes); var odd := NotANumber(x) || NotANumber(y);
      && (Test(Equals, Float, a, b) <==> odd || FloatValue(x) == FloatValue(y))
      && (Test(NotEquals, Float, a, b) <==> !odd && FloatValue(x) != FloatValue(y))
      && (Test(Less, Float, a, b) <==> !odd && FloatValue(x) < FloatValue(y))
      && (Test(Greater, Float, a, b) <==> !odd && FloatValue(x) > FloatValue(y))
      && (Test(LessEq, Float, a, b) <==> odd || FloatValue(x) <= FloatValue(y))
      && (Test(GreaterEq, Float, a, b) <==> odd || FloatValue(x) >= FloatValue(y))
  {
    hide NotANumber, FloatValue, U32;
  }

  /** Patterns without a sign are ordered like the numbers they stand for. */
  lemma MagnitudeGrows(u: nat, v: nat)
    requires u < v < 0x8000_0000
    ensures Magnitude(u) < Magnitude(v)
  {
    var e, f := u / 0x80_0000, u % 0x80_0000;
    var e', f' := v / 0x80_0000, v % 0x80_0000;
    assert e < e' || (e == e' && f < f');
    if e == e' {
      if e > 0 {
        Scale(0x80_0000 + f, 0x80_0000 + f', Power2(e - 1));
      }
    } else {
      if e > 0 {
        PowerGrows(e, e' - 1);
        Scale(0x80_0000 + f, 0x100_0000, Power2(e - 1));
        assert Power2(e) == 2 * Power2(e - 1);
        NotLess(0x80_0000, 0x80_0000, Power2(e), Power2(e' - 1));
      }
      NotLess(0x80_0000, 0x80_0000 + f', Power2(e' - 1), Power2(e' - 1));
    }
  }

  lemma Scale(a: nat, b: nat, k: nat)
    requires a < b && k > 0
    ensures a * k < b * k
  {
  }

  lemma NotLess(a: nat, b: nat, k: nat, l: nat)
    requires a <= b && k <= l
    ensures a * k <= b * l
  {
  }

  lemma {:induction false} PowerGrows(a: nat, b: nat)
    requires a <= b
    ensures Power2(a) <= Power2(b)
  {
    if a < b {
      PowerGrows(a, b - 1);
    }
  }

  /** Different bytes are different integers. */
  lemma DecodeOnce(t: FieldType, a: seq<byte>, b: seq<byte>)
    requires Integer(t) && |a| == |b| == TypeSize(t) && Decode(t, a) == Decode(t, b)
    ensures a == b
  {
    hide U32, U16, Num;
    if t == Int32 || t == UInt32 {
      U32Once(a, b);
    } else if t == UInt16 {
      U16Once(a, b);
    } else {
      NumOnce(a[0], b[0]);
    }
  }

  lemma U16Once(a: seq<byte>, b: seq<byte>)
    requires |a| == |b| == 2 && U16(a) == U16(b)
    ensures a == b
  {
    hide Num;
    NumOnce(a[0], b[0]);
    NumOnce(a[1], b[1]);
  }

  lemma U32Once(a: seq<byte>, b: seq<byte>)
    requires |a| == |b| == 4 && U32(a) == U32(b)
    ensures a == b
  {
    hide Num, U32;
    U32Digits(a, b);
    NumOnce(a[0], b[0]);
    NumOnce(a[1], b[1]);
    NumOnce(a[2], b[2]);
    NumOnce(a[3], b[3]);
  }

  lemma U32Digits(a: seq<byte>, b: seq<byte>)
    requires |a| == |b| == 4 && U32(a) == U32(b)
    ensures Num(a[0]) == Num(b[0]) && Num(a[1]) == Num(b[1]) && Num(a[2]) == Num(b[2]) && Num(a[3]) == Num(b[3])
  {
    hide Num;
    FourDigits(Num(a[0]), Num(a[1]), Num(a[2]), Num(a[3]), Num(b[0]), Num(b[1]), Num(b[2]), Num(b[3]));
  }

  lemma FourDigits(a: nat, b: nat, c: nat, d: nat, x: nat, y: nat, z: nat, w: nat)
    requires a < 256 && b < 256 && c < 256 && x < 256 && y < 256 && z < 256
    requires a + 256 * b + 0x1_0000 * c + 0x100_0000 * d == x + 256 * y + 0x1_0000 * z + 0x100_0000 * w
    ensures a == x && b == y && c == z && d == w
  {
    LowDigit(a, b + 256 * (c + 256 * d), x, y + 256 * (z + 256 * w));
    LowDigit(b, c + 256 * d, y, z + 256 * w);
    LowDigit(c, d, z, w);
  }

  lemma LowDigit(a: nat, x: nat, b: nat, y: nat)
    requires a < 256 && b < 256 && a + 256 * x == b + 256 * y
    ensures a == b && x == y
  {
  }

  /** Equality of integers and of strings is equality of values. */
  lemma EqualsMeans(t: FieldType, a: Value, b: Value)
    requires Comparable(t, a) && Comparable(t, b) && t != Float
    ensures Test(Equals, t, a, b) <==> a == b
  {
    hide Decode, FloatLess;
    if Integer(t) {
      PredicatesMean(t, a, b);
    }
  }

  function Converse(p: Predicate): Predicate {
    match p
    case Greater => Less
    case Less => Greater
    case GreaterEq => LessEq
    case LessEq => GreaterEq
    case _ => p
  }

  /** Exchanging the operands exchanges the relation for its converse, for every type. */
  lemma ConverseMeans(p: Predicate, t: FieldType, a: Value, b: Value)
    requires Comparable(t, a) && Comparable(t, b) && Meant(p, t)
    ensures Test(p, t, a, b) == Test(Converse(p), t, b, a)
  {
    hide Decode, U32, NotANumber, FloatValue;
  }
}
