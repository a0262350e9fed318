/** The two formats in the numbers of IEEE 754-2008 (section 3.4, and Table 3.5): fields, values, bytes, and the rounding of doubles. */
module Ieee754Forms {
  import opened Doubles
  import opened Ieee754

  /** The bytes from the most significant. */
  function BigEndian(isBE: bool, b: seq<Byte>): (r: seq<nat>)
    ensures |r| == |b| && forall k :: 0 <= k < |b| ==> r[k] == (if isBE then b[k] else b[|b| - 1 - k]) < 256
  {
    seq(|b|, k requires 0 <= k < |b| => if isBE then b[k] else b[|b| - 1 - k])
  }

  // ---------- values ----------

  /** A float: eight bits of exponent, biased by 127, and twenty-three of mantissa. */
  function FloatOf(negative: bool, e: nat, m: nat): Number {
    if e == 255 then (if m != 0 then NaN else Infinite(negative))
    else if e == 0 then Finite(negative, m as real * Exp2(-149))
    else Finite(negative, (m + 0x80_0000) as real * Exp2(e - 150))
  }

  /** A double: eleven bits of exponent, biased by 1023, and fifty-two of mantissa. */
  function DoubleOf(negative: bool, e: nat, m: nat): Number {
    if e == 2047 then (if m != 0 then NaN else Infinite(negative))
    else if e == 0 then Finite(negative, m as real * Exp2(-1074))
    else Finite(negative, (m + 0x10_0000_0000_0000) as real * Exp2(e - 1075))
  }

  lemma Values(negative: bool, e: nat, m: nat)
    ensures FromFields(Single, negative, e, m) == FloatOf(negative, e, m)
    ensures FromFields(Double, negative, e, m) == DoubleOf(negative, e, m)
  {
    hide Exp2;
  }

  lemma FirstTwoIs(f: Format, isBE: bool, b: seq<Byte>)
    requires |b| == f.NBytes()
    ensures var x := BigEndian(isBE, b); First(f, isBE, b) == x[0] && FirstTwo(f, isBE, b) == x[0] % 128 * 256 + x[1]
  {
  }

  lemma SplitFirstTwo(x: nat, y: nat)
    requires x < 256 && y < 256
    ensures (x % 128 * 256 + y) / 128 == x % 128 * 2 + y / 128 && (x % 128 * 256 + y) % 128 == y % 128
    ensures (x % 128 * 256 + y) / 16 == x % 128 * 16 + y / 16 && (x % 128 * 256 + y) % 16 == y % 16
    ensures x / 128 == 1 <==> x >= 128
  {
  }

  /** Reading a float: the sign is the first bit, then come exponent and mantissa. */
  lemma SingleIs(isBE: bool, b: seq<Byte>)
    requires |b| == 4
    ensures var x := BigEndian(isBE, b);
      Decoded(Single, isBE, b) == FloatOf(x[0] >= 128, x[0] % 128 * 2 + x[1] / 128, (x[1] % 128 * 256 + x[2]) * 256 + x[3])
  {
    hide FromFields, FloatOf, DoubleOf, ReadLows, First, FirstTwo;
    var x := BigEndian(isBE, b);
    FirstTwoIs(Single, isBE, b);
    SplitFirstTwo(x[0], x[1]);
    LowsOfSingle(isBE, b, x[1] % 128);
    Values(x[0] >= 128, x[0] % 128 * 2 + x[1] / 128, (x[1] % 128 * 256 + x[2]) * 256 + x[3]);
  }

  lemma LowsOfSingle(isBE: bool, b: seq<Byte>, m: nat)
    requires |b| == 4
    ensures var x := BigEndian(isBE, b); ReadLows(Single, isBE, b, m, 2) == (m * 256 + x[2]) * 256 + x[3]
  {
    hide ReadLows;
    ReadLowsStep(Single, isBE, b, m, 2);
    ReadLowsStep(Single, isBE, b, m * 256 + b[Position(Single, isBE, 1)], 1);
    ReadLowsEnds(Single, isBE, b, (m * 256 + b[Position(Single, isBE, 1)]) * 256 + b[Position(Single, isBE, 0)]);
  }

  /** Reading a double. */
  lemma DoubleIs(isBE: bool, b: seq<Byte>)
    requires |b| == 8
    ensures var x := BigEndian(isBE, b);
      Decoded(Double, isBE, b) == DoubleOf(x[0] >= 128, x[0] % 128 * 16 + x[1] / 16,
        (((((x[1] % 16 * 256 + x[2]) * 256 + x[3]) * 256 + x[4]) * 256 + x[5]) * 256 + x[6]) * 256 + x[7])
  {
    hide FromFields, FloatOf, DoubleOf, ReadLows, First, FirstTwo;
    var x := BigEndian(isBE, b);
    FirstTwoIs(Double, isBE, b);
    SplitFirstTwo(x[0], x[1]);
    LowsOfDouble(isBE, b, x[1] % 16);
    Values(x[0] >= 128, x[0] % 128 * 16 + x[1] / 16,
           (((((x[1] % 16 * 256 + x[2]) * 256 + x[3]) * 256 + x[4]) * 256 + x[5]) * 256 + x[6]) * 256 + x[7]);
  }

  lemma LowsOfDouble(isBE: bool, b: seq<Byte>, m: nat)
    requires |b| == 8
    ensures var x := BigEndian(isBE, b);
      ReadLows(Double, isBE, b, m, 6) == (((((m * 256 + x[2]) * 256 + x[3]) * 256 + x[4]) * 256 + x[5]) * 256 + x[6]) * 256 + x[7]
  {
    hide ReadLows;
    var m5 := m * 256 + b[Position(Double, isBE, 5)];
    var m4 := m5 * 256 + b[Position(Double, isBE, 4)];
    var m3 := m4 * 256 + b[Position(Double, isBE, 3)];
    var m2 := m3 * 256 + b[Position(Double, isBE, 2)];
    var m1 := m2 * 256 + b[Position(Double, isBE, 1)];
    var m0 := m1 * 256 + b[Position(Double, isBE, 0)];
    ReadLowsStep(Double, isBE, b, m, 6);
    ReadLowsStep(Double, isBE, b, m5, 5);
    ReadLowsStep(Double, isBE, b, m4, 4);
    ReadLowsStep(Double, isBE, b, m3, 3);
    ReadLowsStep(Double, isBE, b, m2, 2);
    ReadLowsStep(Double, isBE, b, m1, 1);
    ReadLowsEnds(Double, isBE, b, m0);
  }

  /** What is written for infinities and for what is no number: all ones in the exponent, and a one in the mantissa for the latter. */
  lemma SpecialFields(negative: bool, estimate: int)
    ensures Written(Single, NaN, estimate) == (255, 1.0) && Written(Single, Infinite(negative), estimate) == (255, 0.0)
    ensures Written(Double, NaN, estimate) == (2047, 1.0) && Written(Double, Infinite(negative), estimate) == (2047, 0.0)
    ensures !Negative(NaN) && (Negative(Infinite(negative)) <==> negative)
  {
  }

  /** Zero, which has no logarithm, is read back with its sign, whatever the estimate. */
  lemma ZeroReadsBack(f: Format, isBE: bool, b: seq<Byte>, negative: bool, estimate: int)
    requires var (e, m) := Written(f, Finite(negative, 0.0), estimate); e >= 0 && m >= 0.0 && Packed(f, isBE, b, negative, e, m.Floor)
    ensures Decoded(f, isBE, b) == Finite(negative, 0.0)
  {
    hide Written, Packed, Decoded, Exp2;
    Values(negative, 0, 0);
    RoundTrip(f, isBE, b, negative, 0, 0, 0, estimate);
  }

  // ---------- doubles ----------

  lemma EvenOfTwo(y: real)
    ensures var n := NearestEven(y);
      n as real - 0.5 <= y <= n as real + 0.5 && (y == n as real - 0.5 || y == n as real + 0.5 ==> n % 2 == 0)
  {
  }

  lemma Bits53(y: real)
    requires Shift(1.0, 52) <= y < Shift(1.0, 53)
    ensures 0x10_0000_0000_0000 <= NearestEven(y) <= 0x20_0000_0000_0000
  {
    hide Exp2, Shift;
    TwoTo53(0);
    ShiftZero(TWO_TO_53 as real);
    ShiftStep(1.0, 52);
  }

  lemma ShiftIs(v: real, n: int)
    ensures Shift(v, n) == v * Exp2(n)
  {
  }

  /** A double is a number of fifty-three bits: the nearest one, or the even one of the two nearest. */
  lemma RoundedIs(x: real) returns (b: int, n: int)
    requires x > 0.0
    ensures Exp2(b) <= x < Exp2(b + 1) && 0x10_0000_0000_0000 <= n <= 0x20_0000_0000_0000 && Rounded(x) == n as real * Exp2(b - 52)
    ensures var y := x * Exp2(52 - b);
      && n as real - 0.5 <= y <= n as real + 0.5 && (y == n as real - 0.5 || y == n as real + 0.5 ==> n % 2 == 0)
  {
    hide Exp2, Shift, Binade, NearestEven;
    b := Binade(x);
    n := NearestEven(Shift(x, 52 - b));
    ShiftIs(1.0, b);
    ShiftIs(1.0, b + 1);
    ShiftIs(x, 52 - b);
    ShiftIs(n as real, b - 52);
    assert 1.0 * Exp2(b) == Exp2(b) && 1.0 * Exp2(b + 1) == Exp2(b + 1);
    Significand(x, b);
    Bits53(Shift(x, 52 - b));
    EvenOfTwo(Shift(x, 52 - b));
  }

  /** Powers of two. */
  lemma Exp2Is(n: int)
    ensures Exp2(0) == 1.0 && Exp2(n + 1) == 2.0 * Exp2(n)
  {
    Exp2Step(n);
  }
}
