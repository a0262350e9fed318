/** Packing numbers into IEEE 754 formats, in exact arithmetic. */
module Ieee754 {
  import opened Arithmetic
  import opened Doubles

  type Byte = n: nat | n < 256

  datatype Number = NaN | Infinite(negative: bool) | Finite(negative: bool, magnitude: real)

  /** The two formats buffers read and write: mLen 23 in 4 bytes, and mLen 52 in 8 bytes. */
  datatype Format = Single | Double {
    function MLen(): int {
      if this.Single? then 23 else 52
    }
    function NBytes(): nat {
      if this.Single? then 4 else 8
    }
    function EMax(): int {
      if this.Single? then 255 else 2047
    }
    function EBias(): int {
      if this.Single? then 127 else 1023
    }
    /** How many bits of the mantissa share bytes with the exponent. */
    function Shared(): nat {
      if this.Single? then 7 else 4
    }
    /** How many bytes hold nothing but mantissa. */
    function Lows(): nat {
      NBytes() - 2
    }
    /** Math.pow(2, mLen), and the values of the shared bits. */
    function Hidden(): nat {
      if this.Single? then 0x80_0000 else 0x10_0000_0000_0000
    }
    function Room(): nat {
      if this.Single? then 128 else 16
    }
  }

  // ---------- from a value to its fields ----------

  /** Math.pow(2, mLen) is the hidden bit. */
  lemma HiddenIsPower(f: Format)
    ensures Shift(1.0, f.MLen()) == f.Hidden() as real
  {
    hide Exp2, Shift, Pow2;
    Pow2Of51();
    Pow2Half(53);
    Pow2Half(52);
    Pow2Of23();
    WholeShift(1, f.MLen());
  }

  /** The magnitude that an exponent field and a mantissa field stand for. */
  function Value(f: Format, e: nat, m: nat): (v: real)
    ensures v >= 0.0
  {
    var n, x := if e == 0 then m else m + f.Hidden(), (if e == 0 then 1 else e) - f.EBias() - f.MLen();
    ShiftPositive(n as real, x);
    Shift(n as real, x)
  }

  /** A little less than half a unit in the last place of a mantissa of one. */
  function Rounding(f: Format): real {
    if f.Single? then Exp2(-24) - Exp2(-77) else 0.0
  }

  /** What rounding adds, in units of the last place. */
  function Half(f: Format): real {
    Shift(Rounding(f), f.MLen())
  }

  lemma HalfIs(f: Format)
    ensures Half(f) == if f.Single? then 0.5 - Shift(1.0, -54) else 0.0
    ensures Rounding(f) >= 0.0 && 0.0 <= Half(f) < 0.5
  {
    hide Exp2;
    TinyIs();
    if f.Single? {
      assert Shift(1.0, -24) == Exp2(-24) && Shift(1.0, -77) == Exp2(-77);
      ShiftShift(1.0, -24, 23);
      ShiftShift(1.0, -77, 23);
      ShiftSum(Exp2(-24), Exp2(-77), 23);
      ShiftPositive(Rounding(f), 23);
    } else {
      ShiftPositive(0.0, 52);
    }
  }

  /** The exponent after the first correction; estimate is the floor of the logarithm, as computed. */
  function FirstExponent(v: real, estimate: int): int {
    if Shift(v, -estimate) < 1.0 then estimate - 1 else estimate
  }

  /** What is added at exponent e: the least exponent of normal numbers at least. */
  function Added(f: Format, e: int): (t: real)
    ensures t >= 0.0
  {
    HalfIs(f);
    DividedByExp2(Rounding(f), e);
    ShiftPositive(Rounding(f), e);
    ShiftPositive(Rounding(f), 1 - f.EBias());
    if e + f.EBias() >= 1 then Rounding(f) / Exp2(-e) else Shift(Rounding(f), 1 - f.EBias())
  }

  /** The sum is a double. */
  function RoundedUp(f: Format, v: real, e: int): real
    requires v >= 0.0
  {
    Rounded(v + Added(f, e))
  }

  function SecondExponent(v: real, e: int): int {
    if Shift(v, -e) >= 2.0 then e + 1 else e
  }

  /** The fields written for a rounded value; the mantissa still has a fraction. */
  function Split(f: Format, v: real, e: int): (int, real) {
    if e + f.EBias() >= f.EMax() then (f.EMax(), 0.0)
    else if e + f.EBias() >= 1 then (e + f.EBias(), Shift(Shift(v, -e) - 1.0, f.MLen()))
    else (0, Shift(Shift(v, f.EBias() - 1), f.MLen()))
  }

  /** For zero the logarithm is minus infinity, and the branches are those of the smallest exponents. */
  function Fields(f: Format, v: real, estimate: int): (int, real)
    requires v >= 0.0
  {
    if v == 0.0 then (0, Shift(Shift(Rounded(Added(f, -f.EBias())), f.EBias() - 1), f.MLen()))
    else
      var e := FirstExponent(v, estimate);
      var v1 := RoundedUp(f, v, e);
      Split(f, v1, SecondExponent(v1, e))
  }

  /** floor is the floor of the logarithm to base 2, and the estimate is at most one away from it. */
  predicate Near(v: real, floor: int, estimate: int) {
    Shift(1.0, floor) <= v < Shift(1.0, floor + 1) && floor - 1 <= estimate <= floor + 1
  }

  /** A value against a power of two, and against the next. */
  lemma AgainstPower(v: real, e: int)
    ensures Shift(v, -e) < 1.0 <==> v < Shift(1.0, e)
    ensures Shift(v, -e) >= 2.0 <==> v >= Shift(1.0, e + 1)
  {
    hide Exp2, Shift;
    TinyIs();
    ShiftMonotone(v, Shift(1.0, e), -e);
    ShiftMonotone(Shift(1.0, e + 1), v, -e);
    ShiftShift(1.0, e, -e);
    ShiftShift(1.0, e + 1, -e);
    ShiftStep(1.0, 0);
  }

  /** The first correction makes up for an estimate that is too high. */
  lemma FirstExponentIs(v: real, floor: int, estimate: int)
    requires Near(v, floor, estimate)
    ensures FirstExponent(v, estimate) == if estimate < floor then estimate else floor
  {
    hide Exp2, Shift;
    AgainstPower(v, estimate);
    if estimate < floor {
      ShiftGrows(1.0, estimate, floor);
    }
  }

  /** The second one does so for a sum that has reached the next power of two, or for an estimate that was too low. */
  lemma SecondExponentIs(v: real, e: int)
    ensures SecondExponent(v, e) == if v >= Shift(1.0, e + 1) then e + 1 else e
  {
    AgainstPower(v, e);
  }

  /** The exponent of a unit in the last place. */
  function Unit(f: Format, floor: int): int {
    (if floor + f.EBias() < 1 then 1 - f.EBias() else floor) - f.MLen()
  }

  /** A value in units: how many it has, and how many there are up to the next power of two. */
  lemma InUnits(f: Format, v: real, floor: int)
    requires Shift(1.0, floor) <= v < Shift(1.0, floor + 1)
    ensures v > 0.0 && 0.0 < Shift(v, -Unit(f, floor)) && Shift(Shift(v, -Unit(f, floor)), Unit(f, floor)) == v
    ensures floor + f.EBias() >= 1 ==> f.Hidden() as real <= Shift(v, -Unit(f, floor)) < 2.0 * f.Hidden() as real
    ensures floor + f.EBias() < 1 ==> Shift(v, -Unit(f, floor)) < f.Hidden() as real
  {
    hide Exp2, Shift;
    var u := Unit(f, floor);
    HiddenIsPower(f);
    ShiftPositive(1.0, floor);
    ShiftPositive(v, -u);
    ShiftShift(v, -u, u);
    ShiftZero(v);
    ShiftMonotone(Shift(1.0, floor), v, -u);
    ShiftMonotone(v, Shift(1.0, floor + 1), -u);
    ShiftShift(1.0, floor, -u);
    ShiftShift(1.0, floor + 1, -u);
    ShiftStep(1.0, f.MLen());
    if floor + f.EBias() < 1 {
      ShiftGrows(1.0, floor + 1 - u, f.MLen());
    }
  }

  /** The estimate makes rounding add half as much as it should. */
  predicate IsLow(f: Format, floor: int, estimate: int) {
    estimate < floor && floor + f.EBias() >= 2
  }

  /** What rounding amounts to, in units. */
  function Offset(f: Format, low: bool): real {
    if f.Double? then 0.0 else if low then 0.25 else 0.5
  }

  /** The value in whole units, as written. */
  function UnitsWritten(f: Format, v: real, floor: int, estimate: int): int {
    (Shift(v, -Unit(f, floor)) + Offset(f, IsLow(f, floor, estimate))).Floor
  }

  /** Rounding adds, in units, a little less than its offset. */
  lemma AddedInUnits(f: Format, floor: int, estimate: int, e: int)
    requires floor - 1 <= estimate <= floor + 1 && e == if estimate < floor then estimate else floor
    ensures Added(f, e) == Shift(if IsLow(f, floor, estimate) then Half(f) / 2.0 else Half(f), Unit(f, floor))
  {
    var r, u := Rounding(f), Unit(f, floor);
    hide Exp2, Shift, Rounding;
    DividedByExp2(r, e);
    ShiftShift(r, f.MLen(), u);
    ShiftShift(r, f.MLen(), e - f.MLen());
    ShiftStep(Half(f), e - f.MLen());
  }

  /** The rounded sum, in units, is cut off to what the offset alone would make of it. */
  lemma UnitsRounded(f: Format, k: nat, n: int, low: bool)
    requires k < TWO_TO_53 && (f.Single? ==> Shift(k as real, n) < Shift(1.0, 50))
    ensures var w, h := Shift(k as real, n), if low then Half(f) / 2.0 else Half(f);
      w >= 0.0 && h >= 0.0 && Rounded(w + h) >= 0.0 && Rounded(w + h).Floor == (w + Offset(f, low)).Floor
  {
    hide Exp2, Shift, Rounded;
    HalfIs(f);
    TinyIs();
    ShiftPositive(k as real, n);
    if f.Double? {
      RoundedWhole(k, n);
      assert Shift(k as real, n) + 0.0 == Shift(k as real, n);
    } else if low {
      SumFloor(k, n, 0.25, Shift(1.0, -54) / 2.0);
    } else {
      SumFloor(k, n, 0.5, Shift(1.0, -54));
    }
  }

  /** The rounded value of a double, in units. */
  lemma RoundedUpIs(f: Format, k: nat, n: int, v: real, floor: int, estimate: int) returns (y: real)
    requires k < TWO_TO_53 && v == Shift(k as real, n) && Near(v, floor, estimate)
    ensures v > 0.0 && y >= 0.0 && RoundedUp(f, v, FirstExponent(v, estimate)) == Shift(y, Unit(f, floor))
    ensures y.Floor == UnitsWritten(f, v, floor, estimate)
  {
    hide Exp2, Shift, Rounded, FirstExponent, Added, Half, Offset, IsLow;
    var u, low := Unit(f, floor), IsLow(f, floor, estimate);
    var w, h := Shift(v, -u), if low then Half(f) / 2.0 else Half(f);
    FirstExponentIs(v, floor, estimate);
    InUnits(f, v, floor);
    AddedInUnits(f, floor, estimate, FirstExponent(v, estimate));
    ShiftShift(k as real, n, -u);
    BelowFifty(f, w);
    UnitsRounded(f, k, n - u, low);
    ShiftSum(w, h, u);
    RoundedShift(w + h, u);
    y := Rounded(w + h);
  }

  lemma BelowFifty(f: Format, w: real)
    requires w < 2.0 * f.Hidden() as real
    ensures f.Single? ==> w < Shift(1.0, 50)
  {
    if f.Single? {
      HiddenIsPower(f);
      ShiftStep(1.0, 23);
      ShiftGrows(1.0, 24, 50);
    }
  }

  /** The mantissa of a normal number, in units. */
  lemma NormalMantissa(f: Format, y: real, e: int)
    ensures Shift(Shift(Shift(y, e - f.MLen()), -e) - 1.0, f.MLen()) == y - f.Hidden() as real
    ensures Shift(Shift(Shift(y, e - 1 - f.MLen()), -e) - 1.0, f.MLen()) == y / 2.0 - f.Hidden() as real
  {
    hide Exp2, Shift;
    HiddenIsPower(f);
    var h := f.Hidden() as real;
    ShiftStep(y, e - 1 - f.MLen());
    ShiftStep(y / 2.0, e - 1 - f.MLen());
    FromUnits(f, y, e);
    FromUnits(f, y / 2.0, e);
    ShiftSum(Shift(y, -f.MLen()), 1.0, f.MLen());
    ShiftSum(Shift(y / 2.0, -f.MLen()), 1.0, f.MLen());
  }

  lemma FromUnits(f: Format, y: real, e: int)
    ensures Shift(Shift(y, e - f.MLen()), -e) == Shift(y, -f.MLen())
    ensures Shift(Shift(y, -f.MLen()), f.MLen()) == y
  {
    hide Exp2, Shift;
    ShiftShift(y, e - f.MLen(), -e);
    ShiftShift(y, -f.MLen(), f.MLen());
    ShiftZero(y);
  }

  /** The mantissa of a subnormal number, in units. */
  lemma SubnormalMantissa(f: Format, y: real)
    ensures Shift(Shift(Shift(y, 1 - f.EBias() - f.MLen()), f.EBias() - 1), f.MLen()) == y
  {
    FromUnits(f, y, 1 - f.EBias());
  }

  /** A number of units in a binade, as exponent and mantissa in one: the numbers of a format are in the order of their codes. */
  function Code(f: Format, floor: int, units: int): int {
    (Unit(f, floor) + f.EBias() + f.MLen() - 1) * f.Hidden() + units
  }

  /** The fields amount to the code; a mantissa of the next exponent is left when a sum reached it unnoticed. */
  predicate Coded(f: Format, floor: int, under: bool, e: int, m: int, units: int) {
    && 0 <= e <= f.EMax() && 0 <= m <= f.Hidden() && e * f.Hidden() + m == Code(f, floor, units)
    && (m == f.Hidden() ==> e < f.EMax() && (if floor + f.EBias() < 1 then e == 0 && units == m else under && units == 2 * m))
    && (under && floor + f.EBias() >= 1 && units == 2 * f.Hidden() ==> m == f.Hidden())
  }

  /** A sum against the power of two after its exponent. */
  lemma Reaches(f: Format, y: real, e: int)
    ensures Shift(y, e - f.MLen()) >= Shift(1.0, e + 1) <==> y >= 2.0 * f.Hidden() as real
    ensures Shift(y, e - f.MLen()) >= Shift(1.0, e) <==> y >= f.Hidden() as real
  {
    hide Exp2, Shift;
    HiddenIsPower(f);
    ShiftShift(1.0, f.MLen(), e - f.MLen());
    ShiftShift(1.0, f.MLen() + 1, e - f.MLen());
    ShiftStep(1.0, f.MLen());
    ShiftMonotone(2.0 * f.Hidden() as real, y, e - f.MLen());
    ShiftMonotone(f.Hidden() as real, y, e - f.MLen());
  }

  lemma NormalSplit(f: Format, y: real, floor: int, under: bool)
    requires 1 <= floor + f.EBias() && f.Hidden() as real <= y < 2.0 * f.Hidden() as real + 1.0
    ensures var v, e := Shift(y, floor - f.MLen()), if under then floor - 1 else floor;
      var (e', m') := Split(f, v, SecondExponent(v, e));
      if floor + f.EBias() >= f.EMax() then (e', m') == (f.EMax(), 0.0)
      else m' >= 0.0 && Coded(f, floor, under, e', m'.Floor, y.Floor)
  {
    hide Exp2, Shift, SecondExponent;
    var v, e, h := Shift(y, floor - f.MLen()), if under then floor - 1 else floor, f.Hidden();
    SecondExponentIs(v, e);
    Reaches(f, y, floor);
    NormalMantissa(f, y, floor);
    NormalMantissa(f, y, floor + 1);
    if floor + f.EBias() < f.EMax() {
      if y < 2.0 * h as real || under {
        assert (y - h as real).Floor == y.Floor - h;
      } else {
        assert (y / 2.0 - h as real).Floor == 0 && y.Floor == 2 * h;
      }
    }
  }

  lemma SubnormalSplit(f: Format, y: real, floor: int, e: int)
    requires floor + f.EBias() < 1 && floor - 1 <= e <= floor && 0.0 <= y < f.Hidden() as real + 1.0
    ensures var v := Shift(y, 1 - f.EBias() - f.MLen());
      var (e', m') := Split(f, v, SecondExponent(v, e));
      m' >= 0.0 && forall under :: Coded(f, floor, under, e', m'.Floor, y.Floor)
  {
    hide Exp2, Shift, SecondExponent;
    var v, h := Shift(y, 1 - f.EBias() - f.MLen()), f.Hidden();
    SecondExponentIs(v, e);
    Reaches(f, y, 1 - f.EBias());
    NormalMantissa(f, y, 1 - f.EBias());
    SubnormalMantissa(f, y);
    assert (y - h as real).Floor == y.Floor - h;
  }

  /** What is written for a double: the fields of its value in units, with the offset and cut off, or those of infinity. */
  lemma FieldsOf(f: Format, k: nat, n: int, v: real, floor: int, estimate: int)
    requires k < TWO_TO_53 && v == Shift(k as real, n) && Near(v, floor, estimate)
    ensures v > 0.0 && var (e', m') := Fields(f, v, estimate);
      if floor + f.EBias() >= f.EMax() then (e', m') == (f.EMax(), 0.0)
      else m' >= 0.0 && Coded(f, floor, estimate < floor, e', m'.Floor, UnitsWritten(f, v, floor, estimate))
  {
    hide Exp2, Shift, RoundedUp, FirstExponent, SecondExponent, Split, Coded;
    var y := RoundedUpIs(f, k, n, v, floor, estimate);
    FirstExponentIs(v, floor, estimate);
    InUnits(f, v, floor);
    if floor + f.EBias() >= 1 {
      NormalSplit(f, y, floor, estimate < floor);
    } else {
      SubnormalSplit(f, y, floor, FirstExponent(v, estimate));
    }
  }

  lemma ZeroFields(f: Format, estimate: int)
    ensures var (e', m') := Fields(f, 0.0, estimate); e' == 0 && 0.0 <= m' < 0.5
  {
    hide Exp2, Shift, Rounded, Half;
    HalfIs(f);
    AddedInUnits(f, -f.EBias(), -f.EBias(), -f.EBias());
    var u := 1 - f.EBias() - f.MLen();
    HalfOfWhole(f);
    RoundedShift(Half(f), u);
    SubnormalMantissa(f, Half(f));
  }

  /** A half less next to nothing is a double. */
  lemma HalfOfWhole(f: Format)
    ensures Half(f) >= 0.0 && Rounded(Half(f)) == Half(f)
  {
    hide Exp2, Shift, Rounded, Half;
    HalfIs(f);
    TinyIs();
    if f.Single? {
      TwoTo53(-54);
      ShiftSum(TWO_TO_53 as real, 1.0, -54);
      RoundedWhole(TWO_TO_53 - 1, -54);
    } else {
      ShiftPositive(0.0, 0);
      RoundedWhole(0, 0);
    }
  }

  /** For every estimate at most one away from the truth, a representable magnitude is split into its own fields. */
  lemma FieldsOfValue(f: Format, e: nat, m: nat, floor: int, estimate: int)
    requires e < f.EMax() && m < f.Hidden()
    requires e != 0 || m != 0 ==> Near(Value(f, e, m), floor, estimate)
    ensures var (e', m') := Fields(f, Value(f, e, m), estimate);
      e' == e && m' >= 0.0 && m'.Floor == m
  {
    hide Exp2, Shift, Rounded, Fields;
    if e == 0 && m == 0 {
      ShiftPositive(0.0, 1 - f.EBias() - f.MLen());
      ZeroFields(f, estimate);
    } else {
      var units := if e == 0 then m else m + f.Hidden();
      var v, u := Value(f, e, m), (if e == 0 then 1 else e) - f.EBias() - f.MLen();
      ValueFloor(f, e, m, floor);
      FieldsOf(f, units, u, v, floor, estimate);
      ShiftShift(units as real, u, -u);
      ShiftZero(units as real);
      var (e', m') := Fields(f, v, estimate);
      OwnFields(f, e, m, floor, estimate < floor, e', m'.Floor);
    }
  }

  /** A representable value has whole units, of its own exponent. */
  lemma ValueFloor(f: Format, e: nat, m: nat, floor: int)
    requires e < f.EMax() && m < f.Hidden() && (e != 0 || m != 0)
    requires Shift(1.0, floor) <= Value(f, e, m) < Shift(1.0, floor + 1)
    ensures Unit(f, floor) == (if e == 0 then 1 else e) - f.EBias() - f.MLen()
    ensures if e == 0 then floor + f.EBias() < 1 else floor + f.EBias() == e
  {
    hide Exp2, Shift;
    var x := (if e == 0 then 1 else e) - f.EBias();
    var y := (if e == 0 then m else m + f.Hidden()) as real;
    Reaches(f, y, x);
    if e == 0 {
      if floor >= x {
        ShiftGrows(1.0, x, floor);
      }
    } else {
      FloorUnique(Shift(y, x - f.MLen()), floor, x);
    }
  }

  lemma OwnFields(f: Format, e: nat, m: nat, floor: int, under: bool, e': int, m': int)
    requires e < f.EMax() && m < f.Hidden() && (if e == 0 then floor + f.EBias() < 1 else floor + f.EBias() == e)
    requires Coded(f, floor, under, e', m', if e == 0 then m else m + f.Hidden())
    ensures e' == e && m' == m
  {
    DivModUnique(m, e, f.Hidden());
    DivModUnique(m', e', f.Hidden());
  }

  // ---------- fields and bytes ----------

  function Pow256(n: nat): (p: nat)
    ensures p > 0
  {
    if n == 0 then 1 else 256 * Pow256(n - 1)
  }

  /** Bitwise or. */
  function Or(a: nat, b: nat): (r: nat)
    ensures r <= a + b
  {
    if a == 0 && b == 0 then 0
    else 2 * Or(a / 2, b / 2) + if a % 2 == 1 || b % 2 == 1 then 1 else 0
  }

  lemma TwiceHalves(a: nat, p: nat)
    ensures a * (2 * p) % 2 == 0 && a * (2 * p) / 2 == a * p
  {
    assert a * (2 * p) == 2 * (a * p);
  }

  /** Or with what fits below the lowest bit is addition. */
  lemma {:induction false} OrDisjoint(a: nat, n: nat, b: nat)
    requires b < Pow2(n)
    ensures Or(a * Pow2(n), b) == a * Pow2(n) + b
  {
    if n == 0 {
      OrComm(a);
    } else {
      OrDisjoint(a, n - 1, b / 2);
      TwiceHalves(a, Pow2(n - 1));
    }
  }

  lemma {:induction false} OrComm(a: nat)
    ensures Or(a, 0) == a
  {
    if a > 0 {
      OrComm(a / 2);
    }
  }

  lemma RoomIsPower(f: Format)
    ensures Pow2(f.Shared()) == f.Room()
  {
    assert Pow2(4) == 16;
    assert Pow2(7) == 8 * Pow2(4);
  }

  /** The exponent and the mantissa's first bits, as the two top bytes hold them. */
  function Top(f: Format, e: nat, m: nat): nat {
    Or(e * f.Room(), m / Pow256(f.Lows()))
  }

  /** The q-th byte of the fields, from the least significant. */
  function ByteOf(f: Format, negative: bool, e: nat, m: nat, q: nat): nat {
    if q < f.Lows() then m / Pow256(q) % 256
    else if q == f.Lows() then Top(f, e, m) % 256
    else Or(Top(f, e, m) / 256 % 256, if negative then 128 else 0)
  }

  function Position(f: Format, isBE: bool, q: nat): (p: nat)
    requires q < f.NBytes()
    ensures p < f.NBytes()
  {
    if isBE then f.NBytes() - 1 - q else q
  }

  /** The bytes hold the fields. */
  predicate Packed(f: Format, isBE: bool, b: seq<Byte>, negative: bool, e: nat, m: nat) {
    |b| == f.NBytes() && forall q :: 0 <= q < f.NBytes() ==> b[Position(f, isBE, q)] == ByteOf(f, negative, e, m, q)
  }

  /** Reading on from a mantissa with q bytes left. */
  function ReadLows(f: Format, isBE: bool, b: seq<Byte>, m: nat, q: nat): nat
    requires |b| == f.NBytes() && q <= f.Lows()
    decreases q
  {
    if q == 0 then m else ReadLows(f, isBE, b, m * 256 + b[Position(f, isBE, q - 1)], q - 1)
  }

  function FromFields(f: Format, negative: bool, e: nat, m: nat): Number {
    if e == f.EMax() then if m != 0 then NaN else Infinite(negative)
    else Finite(negative, Value(f, e, m))
  }

  /** The first byte, and the two first bytes without the sign. */
  function First(f: Format, isBE: bool, b: seq<Byte>): nat
    requires |b| == f.NBytes()
  {
    b[Position(f, isBE, f.NBytes() - 1)]
  }

  function FirstTwo(f: Format, isBE: bool, b: seq<Byte>): nat
    requires |b| == f.NBytes()
  {
    First(f, isBE, b) % 128 * 256 + b[Position(f, isBE, f.NBytes() - 2)]
  }

  function Decoded(f: Format, isBE: bool, b: seq<Byte>): Number
    requires |b| == f.NBytes()
  {
    var w := FirstTwo(f, isBE, b);
    FromFields(f, First(f, isBE, b) / 128 == 1, w / f.Room(), ReadLows(f, isBE, b, w % f.Room(), f.Lows()))
  }

  lemma QuotientStep(m: nat, q: nat)
    ensures m / Pow256(q) == m / Pow256(q + 1) * 256 + m / Pow256(q) % 256
  {
    var p := Pow256(q);
    var a, b := m / p, m % p;
    DivMod(m, p);
    var c := a / 256;
    DivMod(a, 256);
    assert m == p * (256 * c + a % 256) + b;
    assert m == (p * (a % 256) + b) + (256 * p) * c by {
      assert p * (256 * c + a % 256) == (256 * p) * c + p * (a % 256);
    }
    assert p * (a % 256) + b < 256 * p by {
      MulGrows(p, a % 256, 255);
    }
    DivModUnique(p * (a % 256) + b, c, 256 * p);
  }

  lemma OverOne(m: nat)
    ensures m / Pow256(0) == m
  {
  }

  /** m without its q last bytes. */
  function High(m: nat, q: nat): nat {
    QuotientBounds(m, Pow256(q));
    m / Pow256(q)
  }

  lemma ReadLowsStep(f: Format, isBE: bool, b: seq<Byte>, m: nat, q: nat)
    requires |b| == f.NBytes() && 0 < q <= f.Lows()
    ensures ReadLows(f, isBE, b, m, q) == ReadLows(f, isBE, b, m * 256 + b[Position(f, isBE, q - 1)], q - 1)
  {
  }

  lemma ReadLowsEnds(f: Format, isBE: bool, b: seq<Byte>, m: nat)
    requires |b| == f.NBytes()
    ensures ReadLows(f, isBE, b, m, 0) == m
  {
  }

  lemma PackedAt(f: Format, isBE: bool, b: seq<Byte>, negative: bool, e: nat, m: nat, q: nat)
    requires Packed(f, isBE, b, negative, e, m) && q < f.Lows()
    ensures |b| == f.NBytes() && b[Position(f, isBE, q)] == High(m, q) % 256
  {
    hide Or, Pow256;
    assert b[Position(f, isBE, q)] == ByteOf(f, negative, e, m, q);
  }

  lemma {:induction false} ReadsBack(f: Format, isBE: bool, b: seq<Byte>, negative: bool, e: nat, m: nat, q: nat)
    requires |b| == f.NBytes() && Packed(f, isBE, b, negative, e, m) && q <= f.Lows()
    ensures ReadLows(f, isBE, b, High(m, q), q) == m
  {
    hide Pow256, Packed, ReadLows, Position;
    if q == 0 {
      OverOne(m);
      ReadLowsEnds(f, isBE, b, m);
    } else {
      ReadsBack(f, isBE, b, negative, e, m, q - 1);
      QuotientStep(m, q - 1);
      PackedAt(f, isBE, b, negative, e, m, q - 1);
      ReadLowsStep(f, isBE, b, High(m, q), q);
    }
  }

  /** The mantissa's bits above its own bytes are as many as share a byte with the exponent. */
  lemma SharedBits(f: Format, m: nat)
    requires m < f.Hidden()
    ensures m / Pow256(f.Lows()) < f.Room()
  {
    assert Pow256(2) == 0x1_0000;
    assert Pow256(4) == 256 * (256 * Pow256(2));
    assert Pow256(6) == 256 * (256 * Pow256(4));
    DivMod(m, Pow256(f.Lows()));
  }

  lemma TopIsSum(f: Format, e: nat, m: nat)
    requires m < f.Hidden() && e <= f.EMax()
    ensures Top(f, e, m) == e * f.Room() + m / Pow256(f.Lows()) < 0x8000
  {
    SharedBits(f, m);
    RoomIsPower(f);
    OrDisjoint(e, f.Shared(), m / Pow256(f.Lows()));
  }

  lemma OrSign(h: nat)
    requires h < 128
    ensures Or(h, 128) == h + 128 && Or(h, 0) == h
  {
    assert Pow2(7) == 128 by {
      assert Pow2(4) == 16;
    }
    OrDisjoint(1, 7, h);
    OrSwap(h, 128);
    OrComm(h);
  }

  lemma SevenBits(h: nat)
    requires h < 128
    ensures h % 256 == h % 128 == (h + 128) % 128 == h && h / 128 == 0 && (h + 128) / 128 == 1
  {
  }

  /** The two top bytes hold the sign and the rest. */
  lemma TopBytes(t: nat, negative: bool)
    requires t < 0x8000
    ensures var top := Or(t / 256 % 256, if negative then 128 else 0);
      (top / 128 == 1 <==> negative) && top % 128 == t / 256 && t / 256 * 256 + t % 256 == t
  {
    var h := t / 256;
    assert h < 128;
    OrSign(h);
    SevenBits(h);
    hide Or;
  }

  lemma SplitTop(f: Format, e: nat, high: nat)
    requires high < f.Room()
    ensures (e * f.Room() + high) / f.Room() == e && (e * f.Room() + high) % f.Room() == high
  {
    DivModUnique(high, e, f.Room());
  }

  /** Reading gives back the number whose fields were packed: normal, subnormal or zero of either sign, infinite, or none. */
  lemma DecodedPacked(f: Format, isBE: bool, b: seq<Byte>, negative: bool, e: nat, m: nat)
    requires Packed(f, isBE, b, negative, e, m) && m < f.Hidden() && e <= f.EMax()
    ensures Decoded(f, isBE, b) == FromFields(f, negative, e, m)
  {
    hide First, FirstTwo, Packed, FromFields, ReadLows, Top, Pow256;
    TopsPacked(f, isBE, b, negative, e, m);
    TopIsSum(f, e, m);
    SharedBits(f, m);
    PackedLength(f, isBE, b, negative, e, m);
    SplitTop(f, e, High(m, f.Lows()));
    ReadsBack(f, isBE, b, negative, e, m, f.Lows());
  }

  lemma PackedLength(f: Format, isBE: bool, b: seq<Byte>, negative: bool, e: nat, m: nat)
    requires Packed(f, isBE, b, negative, e, m)
    ensures |b| == f.NBytes()
  {
  }

  lemma TopsPacked(f: Format, isBE: bool, b: seq<Byte>, negative: bool, e: nat, m: nat)
    requires Packed(f, isBE, b, negative, e, m) && m < f.Hidden() && e <= f.EMax()
    ensures FirstTwo(f, isBE, b) == Top(f, e, m) && (First(f, isBE, b) / 128 == 1 <==> negative)
  {
    TopIsSum(f, e, m);
    TopBytes(Top(f, e, m), negative);
    hide Or, Pow256, Top;
    assert b[Position(f, isBE, f.NBytes() - 1)] == ByteOf(f, negative, e, m, f.NBytes() - 1);
    assert b[Position(f, isBE, f.NBytes() - 2)] == ByteOf(f, negative, e, m, f.NBytes() - 2);
  }

  lemma {:induction false} OrSwap(a: nat, b: nat)
    ensures Or(a, b) == Or(b, a)
    decreases a + b
  {
    if a > 0 || b > 0 {
      OrSwap(a / 2, b / 2);
    }
  }

  // ---------- the codec ----------

  predicate Negative(x: Number) {
    !x.NaN? && x.negative
  }

  /** The fields written for a number. */
  function Written(f: Format, x: Number, estimate: int): (int, real)
    requires x.Finite? ==> x.magnitude >= 0.0
  {
    match x
    case NaN => (f.EMax(), 1.0)
    case Infinite(_) => (f.EMax(), 0.0)
    case Finite(_, v) => Fields(f, v, estimate)
  }

  /** The estimate of a non-zero number's logarithm is at most one away from its floor. */
  predicate Estimated(x: Number, floor: int, estimate: int) {
    x.Finite? ==> x.magnitude >= 0.0 && (x.magnitude > 0.0 ==> Near(x.magnitude, floor, estimate))
  }

  /** The sum is not below the power of two that the value is not below. */
  lemma SumKeepsFloor(f: Format, v: real, floor: int, e: int)
    requires v >= 0.0 && Shift(1.0, floor) <= v
    ensures RoundedUp(f, v, e) >= Shift(1.0, floor)
  {
    hide Exp2, Shift, Rounded, Added;
    RoundedWhole(1, floor);
    RoundedMonotone(Shift(1.0, floor), v + Added(f, e));
  }

  /** No value gives a negative field. */
  lemma FieldsSound(f: Format, v: real, floor: int, estimate: int)
    requires v >= 0.0 && (v > 0.0 ==> Near(v, floor, estimate))
    ensures var (e, m) := Fields(f, v, estimate); e >= 0 && m >= 0.0
  {
    hide Exp2, Shift, RoundedUp, FirstExponent, SecondExponent;
    if v == 0.0 {
      ZeroFields(f, estimate);
    } else {
      FirstExponentIs(v, floor, estimate);
      var e := FirstExponent(v, estimate);
      var v1 := RoundedUp(f, v, e);
      SumKeepsFloor(f, v, floor, e);
      SecondExponentIs(v1, e);
      AgainstPower(v1, SecondExponent(v1, e));
      ShiftPositive(1.0, floor);
      ShiftPositive(Shift(v1, -SecondExponent(v1, e)) - 1.0, f.MLen());
      ShiftPositive(v1, f.EBias() - 1);
      ShiftPositive(Shift(v1, f.EBias() - 1), f.MLen());
    }
  }

  /**
   * What is written for a number of the format reads back as that number, in either byte order, for any estimate of its logarithm
   * at most one away from the truth.
   */
  lemma RoundTrip(f: Format, isBE: bool, b: seq<Byte>, negative: bool, e: nat, m: nat, floor: int, estimate: int)
    requires e <= f.EMax() && m < f.Hidden() && Estimated(FromFields(f, negative, e, m), floor, estimate)
    requires var x := FromFields(f, negative, e, m); var (e', m') := Written(f, x, estimate);
      e' >= 0 && m' >= 0.0 && Packed(f, isBE, b, Negative(x), e', m'.Floor)
    ensures Decoded(f, isBE, b) == FromFields(f, negative, e, m)
  {
    var x := FromFields(f, negative, e, m);
    if e < f.EMax() {
      if e != 0 || m != 0 {
        ValuePositive(f, e, m);
      }
      FieldsOfValue(f, e, m, floor, estimate);
      DecodedPacked(f, isBE, b, negative, e, m);
    } else {
      DecodedPacked(f, isBE, b, Negative(x), e, if m != 0 then 1 else 0);
    }
  }

  lemma ValuePositive(f: Format, e: nat, m: nat)
    requires e != 0 || m != 0
    ensures Value(f, e, m) > 0.0
  {
    hide Exp2, Shift;
    ShiftPositive(m as real, 1 - f.EBias() - f.MLen());
    ShiftPositive((m + f.Hidden()) as real, e - f.EBias() - f.MLen());
  }

  // ---------- a double written as a single ----------

  /** The nearest float, the larger of two; v is the magnitude of a number. */
  function Nearest(negative: bool, v: real): Number
    requires v > 0.0
  {
    var u := Unit(Single, Binade(v));
    InUnitsRounded(negative, u, (Shift(v, -u) + 0.5).Floor)
  }

  function InUnitsRounded(negative: bool, u: int, units: int): Number {
    var r := Shift(units as real, u);
    if r >= Shift(1.0, 128) then Infinite(negative) else Finite(negative, r)
  }

  /**
   * An estimate that is one too low is noticed too late: the sum is a quarter of a unit above the value instead of a half, and may
   * reach the next power of two without being scaled down, which then goes into the exponent by a bitwise or.
   */
  predicate EstimateWillDo(v: real, floor: int, estimate: int) {
    var w := Shift(v, 23 - floor);
    var part := w - w.Floor as real;
    || estimate >= floor || floor < -126 || floor > 127
    || ((floor == -126 || part < 0.5 || part >= 0.75)
        && (floor % 2 != 0 || w + (if floor == -126 then 0.5 else 0.25) < 0x100_0000 as real))
  }

  /** Fields that amount to a code stand for the units it was made of. */
  lemma CodeIs(negative: bool, floor: int, units: int, e: nat, m: nat)
    requires floor + 127 < 255 && m < 0x80_0000 && e * 0x80_0000 + m == Code(Single, floor, units)
    requires (if floor + 127 < 1 then 0 else 0x80_0000) <= units <= (if floor + 127 < 1 then 0x80_0000 else 0x100_0000)
    ensures e <= 255 && FromFields(Single, negative, e, m) == InUnitsRounded(negative, Unit(Single, floor), units)
  {
    hide Exp2, Shift;
    var u := Unit(Single, floor);
    Reaches(Single, units as real, u + 23);
    UpToTwice(units as real, u);
    if u + 24 < 128 {
      ShiftGrows(1.0, u + 25, 128);
      ShiftStep(1.0, u + 24);
      ShiftPositive(1.0, u + 24);
    }
    if units == 0x100_0000 {
      assert e == u + 151 && m == 0;
      ShiftStep(0x80_0000 as real, u);
    } else if units >= 0x80_0000 {
      assert e == u + 150 && m == units - 0x80_0000;
    }
  }

  /** No more than the next power of two. */
  lemma UpToTwice(x: real, u: int)
    requires x <= 0x100_0000 as real
    ensures Shift(x, u) <= Shift(1.0, u + 24)
  {
    hide Exp2, Shift;
    HiddenIsPower(Single);
    ShiftStep(1.0, 23);
    ShiftShift(1.0, 24, u);
    ShiftMonotone(x, 0x100_0000 as real, u);
  }

  lemma {:induction false} OrAbsorbs(a: nat, n: nat)
    ensures Or((2 * a + 1) * Pow2(n), Pow2(n)) == (2 * a + 1) * Pow2(n)
  {
    if n == 0 {
      OrComm(a);
    } else {
      OrAbsorbs(a, n - 1);
      TwiceHalves(2 * a + 1, Pow2(n - 1));
    }
  }

  /** The hidden bit, in place of a mantissa: the exponent's last bit is set. */
  lemma HiddenTop(e: nat)
    ensures Top(Single, e, 0x80_0000) == (if e % 2 == 1 then e else e + 1) * 128 == Top(Single, if e % 2 == 1 then e else e + 1, 0)
  {
    hide Pow2, Or;
    RoomIsPower(Single);
    Pow256Of2();
    OrComm((if e % 2 == 1 then e else e + 1) * 128);
    if e % 2 == 1 {
      OrAbsorbs(e / 2, 7);
      assert e == 2 * (e / 2) + 1;
    } else {
      Pow2Half(8);
      OrDisjoint(e / 2, 8, 128);
      assert e / 2 * 256 == e * 128;
    }
  }

  lemma Pow256Of2()
    ensures Pow256(0) == 1 && Pow256(1) == 256 && Pow256(2) == 0x1_0000
  {
  }

  /** No other byte has a bit of it. */
  lemma HiddenByte(negative: bool, e: nat, e': nat, q: nat)
    requires q < 4 && Top(Single, e, 0x80_0000) == Top(Single, e', 0)
    ensures ByteOf(Single, negative, e, 0x80_0000, q) == ByteOf(Single, negative, e', 0, q)
  {
    hide Top, Or, Pow256;
    Pow256Of2();
  }

  lemma DecodedHidden(isBE: bool, b: seq<Byte>, negative: bool, e: nat)
    requires Packed(Single, isBE, b, negative, e, 0x80_0000) && e < 255
    ensures Decoded(Single, isBE, b) == FromFields(Single, negative, if e % 2 == 1 then e else e + 1, 0)
  {
    hide Top, Or, Decoded, FromFields, ByteOf;
    var e' := if e % 2 == 1 then e else e + 1;
    HiddenTop(e);
    forall q | 0 <= q < 4 ensures b[Position(Single, isBE, q)] == ByteOf(Single, negative, e', 0, q) {
      assert b[Position(Single, isBE, q)] == ByteOf(Single, negative, e, 0x80_0000, q);
      HiddenByte(negative, e, e', q);
    }
    DecodedPacked(Single, isBE, b, negative, e', 0);
  }

  /** A sum that reached the next power of two unnoticed is lost if the exponent's last bit is set already. */
  predicate Lost(floor: int, under: bool, units: int) {
    under && floor + 127 >= 1 && units == 0x100_0000 && floor % 2 == 0
  }

  /** What the bytes of a double's fields stand for. */
  lemma DecodedFields(isBE: bool, b: seq<Byte>, negative: bool, floor: int, under: bool, e: nat, m: nat, units: int)
    requires floor + 127 < 255 && Coded(Single, floor, under, e, m, units) && Packed(Single, isBE, b, negative, e, m)
    requires (if floor + 127 < 1 then 0 else 0x80_0000) <= units <= (if floor + 127 < 1 then 0x80_0000 else 0x100_0000)
    ensures Decoded(Single, isBE, b)
         == if Lost(floor, under, units) then FromFields(Single, negative, floor + 127, 0)
            else InUnitsRounded(negative, Unit(Single, floor), units)
  {
    hide Decoded, Packed, FromFields, InUnitsRounded;
    if m == 0x80_0000 {
      DecodedHidden(isBE, b, negative, e);
      if !Lost(floor, under, units) {
        CodeIs(negative, floor, units, e + 1, 0);
      }
    } else {
      DecodedPacked(Single, isBE, b, negative, e, m);
      CodeIs(negative, floor, units, e, m);
    }
  }

  /** Other units are another number. */
  lemma UnitsDiffer(negative: bool, u: int, a: int, b: int)
    requires a < b && Shift(a as real, u) < Shift(1.0, 128)
    ensures InUnitsRounded(negative, u, a) != InUnitsRounded(negative, u, b)
  {
    ShiftMonotone(a as real, b as real, u);
  }

  lemma Quarters(w: real)
    ensures w - w.Floor as real < 0.5 || w - w.Floor as real >= 0.75 <==> (w + 0.25).Floor == (w + 0.5).Floor
    ensures (w + 0.25).Floor <= (w + 0.5).Floor
  {
    assert (w + 0.25).Floor == if w - w.Floor as real >= 0.75 then w.Floor + 1 else w.Floor;
    assert (w + 0.5).Floor == if w - w.Floor as real >= 0.5 then w.Floor + 1 else w.Floor;
  }

  /** The exact condition, in units. */
  lemma EstimateInUnits(v: real, floor: int, estimate: int)
    requires Near(v, floor, estimate) && floor <= 127
    ensures var units, nearest := UnitsWritten(Single, v, floor, estimate), (Shift(v, -Unit(Single, floor)) + 0.5).Floor;
      && (if floor + 127 < 1 then 0 else 0x80_0000) <= units <= nearest <= (if floor + 127 < 1 then 0x80_0000 else 0x100_0000)
      && (EstimateWillDo(v, floor, estimate) <==> units == nearest && !Lost(floor, estimate < floor, units))
  {
    hide Exp2, Shift;
    InUnits(Single, v, floor);
    var w := Shift(v, -Unit(Single, floor));
    assert floor + 127 >= 1 ==> -Unit(Single, floor) == 23 - floor;
    Quarters(w);
  }

  /**
   * A double is written as the nearest float, the larger of two, if and only if the estimate of its logarithm will do: normal or
   * subnormal, down to zero or up to infinity, in either byte order, for every estimate at most one away from the truth.
   */
  lemma WrittenNearest(isBE: bool, b: seq<Byte>, negative: bool, k: nat, n: int, floor: int, estimate: int)
    requires k < TWO_TO_53 && Near(Shift(k as real, n), floor, estimate)
    requires Shift(k as real, n) >= 0.0
    requires var (e, m) := Written(Single, Finite(negative, Shift(k as real, n)), estimate);
      e >= 0 && m >= 0.0 && Packed(Single, isBE, b, negative, e, m.Floor)
    ensures Shift(k as real, n) > 0.0
    ensures Decoded(Single, isBE, b) == Nearest(negative, Shift(k as real, n)) <==> EstimateWillDo(Shift(k as real, n), floor, estimate)
  {
    hide Exp2, Shift, Fields, Coded, Packed, Decoded, EstimateWillDo, InUnitsRounded;
    var v := Shift(k as real, n);
    var u := Unit(Single, floor);
    BinadeIs(v, floor);
    FieldsOf(Single, k, n, v, floor, estimate);
    var (e, m) := Fields(Single, v, estimate);
    if floor > 127 {
      DecodedPacked(Single, isBE, b, negative, 255, 0);
      TooLarge(negative, v, floor, estimate);
    } else {
      EstimateInUnits(v, floor, estimate);
      DecodedFields(isBE, b, negative, floor, estimate < floor, e, m.Floor, UnitsWritten(Single, v, floor, estimate));
      NearestOrNot(negative, v, floor, estimate);
    }
  }

  lemma TooLarge(negative: bool, v: real, floor: int, estimate: int)
    requires floor > 127 && Near(v, floor, estimate)
    ensures v > 0.0 && Nearest(negative, v) == Infinite(negative) && EstimateWillDo(v, floor, estimate)
  {
    hide Exp2, Shift;
    BinadeIs(v, floor);
    InUnits(Single, v, floor);
    var units := (Shift(v, -Unit(Single, floor)) + 0.5).Floor;
    Reaches(Single, units as real, floor);
    ShiftGrows(1.0, 128, floor);
  }

  lemma NearestOrNot(negative: bool, v: real, floor: int, estimate: int)
    requires floor <= 127 && Near(v, floor, estimate) && v > 0.0
    ensures var units, u := UnitsWritten(Single, v, floor, estimate), Unit(Single, floor);
      var written := if Lost(floor, estimate < floor, units) then FromFields(Single, negative, floor + 127, 0)
                     else InUnitsRounded(negative, u, units);
      written == Nearest(negative, v) <==> EstimateWillDo(v, floor, estimate)
  {
    hide Exp2, Shift, EstimateWillDo, UnitsWritten, InUnitsRounded;
    var units, u := UnitsWritten(Single, v, floor, estimate), Unit(Single, floor);
    var nearest := (Shift(v, -u) + 0.5).Floor;
    BinadeIs(v, floor);
    EstimateInUnits(v, floor, estimate);
    if Lost(floor, estimate < floor, units) {
      CodeIs(negative, floor, 0x80_0000, floor + 127, 0);
      UnderTop(0x80_0000, u, floor);
      UnitsDiffer(negative, u, 0x80_0000, nearest);
    } else if units < nearest {
      UnderTop(units, u, floor);
      UnitsDiffer(negative, u, units, nearest);
    }
  }

  lemma UnderTop(units: int, u: int, floor: int)
    requires floor <= 127 && u == Unit(Single, floor) && units < if floor + 127 < 1 then 0x80_0000 else 0x100_0000
    ensures Shift(units as real, u) < Shift(1.0, 128)
  {
    hide Exp2, Shift;
    Reaches(Single, units as real, u + 23);
    ShiftGrows(1.0, u + 24, 128);
  }

  function Distance(a: real, b: real): real {
    if a < b then b - a else a - b
  }

  /** The nearest whole number, and the larger of two. */
  lemma WholeNearest(w: real, z: int)
    ensures var units := (w + 0.5).Floor;
      Distance(units as real, w) < Distance(z as real, w) || (Distance(units as real, w) == Distance(z as real, w) && z <= units)
  {
  }

  lemma DistanceInUnits(a: real, b: real, u: int)
    ensures Distance(Shift(a, u), Shift(b, u)) == Shift(Distance(a, b), u)
  {
    hide Exp2, Shift;
    ShiftSum(a, b, u);
    ShiftSum(b, a, u);
    ShiftMonotone(a, b, u);
  }

  /** A float is whole units of the value's binade, or below it. */
  lemma FloatInUnits(v: real, floor: int, e: nat, m: nat)
    requires Shift(1.0, floor) <= v < Shift(1.0, floor + 1) && e < 255 && m < 0x80_0000
    ensures var z := Shift(Value(Single, e, m), -Unit(Single, floor));
      z == z.Floor as real || (z < 0x80_0000 as real <= Shift(v, -Unit(Single, floor)))
  {
    hide Exp2, Shift;
    var n, x := if e == 0 then m else m + 0x80_0000, (if e == 0 then 1 else e) - 150;
    var u := Unit(Single, floor);
    ShiftShift(n as real, x, -u);
    InUnits(Single, v, floor);
    if x >= u {
      WholeShift(n, x - u);
    } else {
      BelowBinade(n, x, u);
    }
  }

  lemma BelowBinade(n: nat, x: int, u: int)
    requires n < 0x100_0000 && x < u
    ensures Shift(n as real, x - u) < 0x80_0000 as real
  {
    hide Exp2, Shift;
    HiddenIsPower(Single);
    ShiftStep(1.0, 23);
    ShiftMonotone(n as real, Shift(1.0, 24), x - u);
    ShiftShift(1.0, 24, x - u);
    ShiftGrows(1.0, 24 + (x - u), 23);
  }

  /** No float is nearer, and none as near is larger. */
  lemma NoneNearer(negative: bool, v: real, e: nat, m: nat)
    requires v > 0.0 && Nearest(negative, v).Finite? && e < 255 && m < 0x80_0000
    ensures var r, y := Nearest(negative, v).magnitude, Value(Single, e, m);
      Distance(r, v) < Distance(y, v) || (Distance(r, v) == Distance(y, v) && y <= r)
  {
    hide Exp2, Shift, Value, Distance;
    var floor := Binade(v);
    var u := Unit(Single, floor);
    InUnits(Single, v, floor);
    var w, z := Shift(v, -u), Shift(Value(Single, e, m), -u);
    var units := (w + 0.5).Floor;
    FloatInUnits(v, floor, e, m);
    ShiftShift(Value(Single, e, m), -u, u);
    ShiftZero(Value(Single, e, m));
    WholeNearest(w, z.Floor);
    UpToHidden(w, z);
    DistanceInUnits(units as real, w, u);
    DistanceInUnits(z, w, u);
    ShiftMonotone(Distance(units as real, w), Distance(z, w), u);
    ShiftMonotone(z, units as real, u);
  }

  lemma UpToHidden(w: real, z: real)
    requires z == z.Floor as real || z < 0x80_0000 as real <= w
    ensures var units := (w + 0.5).Floor;
      Distance(units as real, w) < Distance(z, w) || (Distance(units as real, w) == Distance(z, w) && z <= units as real)
  {
    WholeNearest(w, z.Floor);
    WholeNearest(w, 0x80_0000);
  }

  /** The nearest float, the one whose last bit is zero of two: the rounding of section 4.3.1 of IEEE 754-2008. */
  function NearestToEven(negative: bool, v: real): Number
    requires v > 0.0
  {
    var u := Unit(Single, Binade(v));
    InUnitsRounded(negative, u, NearestEven(Shift(v, -u)))
  }

  /** Halfway between two floats, of which the smaller is even. */
  predicate TieOverEven(v: real)
    requires v > 0.0
  {
    var w := Shift(v, -Unit(Single, Binade(v)));
    Binade(v) <= 127 && w - w.Floor as real == 0.5 && w.Floor % 2 == 0
  }

  lemma EvenUnits(w: real)
    ensures NearestEven(w) == if w - w.Floor as real == 0.5 && w.Floor % 2 == 0 then (w + 0.5).Floor - 1 else (w + 0.5).Floor
    ensures w - w.Floor as real == 0.5 ==> (w + 0.5).Floor == w.Floor + 1
    ensures w.Floor <= NearestEven(w)
  {
  }

  lemma NearestIsEven(negative: bool, v: real)
    requires v > 0.0
    ensures Nearest(negative, v) == NearestToEven(negative, v) <==> !TieOverEven(v)
  {
    hide Exp2, Shift, NearestEven, InUnitsRounded, Binade;
    var floor := Binade(v);
    var u := Unit(Single, floor);
    InUnits(Single, v, floor);
    var w := Shift(v, -u);
    EvenUnits(w);
    if TieOverEven(v) {
      UnderTop(w.Floor, u, floor);
      UnitsDiffer(negative, u, w.Floor, w.Floor + 1);
    } else if floor > 127 {
      BothInfinite(negative, floor, u, NearestEven(w), (w + 0.5).Floor);
    }
  }

  lemma BothInfinite(negative: bool, floor: int, u: int, a: int, b: int)
    requires floor > 127 && u == Unit(Single, floor) && a >= 0x80_0000 && b >= 0x80_0000
    ensures InUnitsRounded(negative, u, a) == InUnitsRounded(negative, u, b) == Infinite(negative)
  {
    hide Exp2, Shift;
    Reaches(Single, a as real, floor);
    Reaches(Single, b as real, floor);
    ShiftGrows(1.0, 128, floor);
  }

  /**
   * Written with an estimate that will do, a double becomes the float that rounding to even makes of it if and only if it is not
   * halfway between two floats of which the smaller is even.
   */
  lemma WrittenEven(isBE: bool, b: seq<Byte>, negative: bool, k: nat, n: int, floor: int, estimate: int)
    requires k < TWO_TO_53 && Near(Shift(k as real, n), floor, estimate) && EstimateWillDo(Shift(k as real, n), floor, estimate)
    requires Shift(k as real, n) >= 0.0
    requires var (e, m) := Written(Single, Finite(negative, Shift(k as real, n)), estimate);
      e >= 0 && m >= 0.0 && Packed(Single, isBE, b, negative, e, m.Floor)
    ensures Shift(k as real, n) > 0.0
    ensures Decoded(Single, isBE, b) == NearestToEven(negative, Shift(k as real, n)) <==> !TieOverEven(Shift(k as real, n))
  {
    hide Exp2, Shift, Written, Packed, Decoded, EstimateWillDo, Nearest, NearestToEven, TieOverEven;
    WrittenNearest(isBE, b, negative, k, n, floor, estimate);
    NearestIsEven(negative, Shift(k as real, n));
  }

  /** Just over one: half a unit more. Its neighbours are one, which is even, and the next float. */
  lemma TieIs()
    ensures var v := Shift(0x100_0001 as real, -24);
      && Shift(1.0, 0) <= v < Shift(1.0, 1) && Shift(v, 23) == 0x80_0000 as real + 0.5
      && v - Value(Single, 127, 0) == Value(Single, 127, 1) - v
  {
    hide Exp2, Shift;
    var v := Shift(0x100_0001 as real, -24);
    HiddenIsPower(Single);
    ShiftStep(1.0, 23);
    ShiftShift(1.0, 24, -24);
    ShiftZero(1.0);
    ShiftStep(1.0, 0);
    ShiftShift(0x100_0001 as real, -24, 23);
    ShiftStep(0x100_0001 as real, -1);
    ShiftZero(0x100_0001 as real);
    ShiftMonotone(0x100_0000 as real, 0x100_0001 as real, -24);
    ShiftMonotone(0x100_0001 as real, 0x200_0000 as real, -24);
    ShiftStep(0x100_0000 as real, -24);
    ShiftStep(0x80_0000 as real, -24);
    ShiftStep(0x80_0001 as real, -24);
    ShiftSum(0x100_0001 as real, 0x100_0000 as real, -24);
    ShiftSum(0x100_0002 as real, 0x100_0001 as real, -24);
  }

  /** A value halfway between two floats goes to the larger one, though the smaller is even; unless the estimate is too low. */
  lemma TieGoesUp(isBE: bool, b: seq<Byte>, estimate: int)
    requires -1 <= estimate <= 1 && Shift(0x100_0001 as real, -24) >= 0.0
    requires var (e, m) := Written(Single, Finite(false, Shift(0x100_0001 as real, -24)), estimate);
      e >= 0 && m >= 0.0 && Packed(Single, isBE, b, false, e, m.Floor)
    ensures Decoded(Single, isBE, b) == Finite(false, Value(Single, 127, 1)) <==> estimate >= 0
  {
    hide Exp2, Shift, Written, Packed, Decoded;
    TieIs();
    var v := Shift(0x100_0001 as real, -24);
    WrittenNearest(isBE, b, false, 0x100_0001, -24, 0, estimate);
    BinadeIs(v, 0);
    ShiftGrows(1.0, 1, 128);
    UnderTop(0x80_0001, -23, 0);
    assert Value(Single, 127, 1) == Shift(0x80_0001 as real, -23);
  }

  lemma Constants(f: Format)
    ensures var eLen := f.NBytes() * 8 - f.MLen() - 1;
      eLen == 15 - f.Shared() && Pow2(eLen) - 1 == f.EMax() && f.EMax() / 2 == f.EBias() && f.MLen() == 8 * f.Lows() + f.Shared()
  {
    assert Pow2(4) == 16;
    assert Pow2(8) == 16 * Pow2(4);
    assert Pow2(11) == 8 * Pow2(8);
  }

  method ReadIEEE754(buffer: array<Byte>, offset: nat, isBE: bool, f: Format) returns (r: Number)
    requires offset + f.NBytes() <= buffer.Length
    ensures r == Decoded(f, isBE, buffer[offset..offset + f.NBytes()])
  {
    hide Pow2, FromFields, FirstTwo, First, ReadLows;
    var nBytes, mLen := f.NBytes(), f.MLen();
    var eLen := nBytes * 8 - mLen - 1;
    Constants(f);
    RoomIsPower(f);
    var eMax := Pow2(eLen) - 1;
    var eBias := eMax / 2;
    var nBits := -7;
    var i, d := if isBE then 0 else nBytes - 1, if isBE then 1 else -1;
    var s: nat := buffer[offset + i];
    FirstIs(buffer, offset, isBE, f);
    i := i + d;
    var e: nat := s % 128;
    s := s / 128;
    nBits := nBits + eLen;
    e, nBits, i := ReadExponent(buffer, offset, isBE, f, e, nBits, i, d);
    var m: nat := e % Pow2(-nBits);
    e := e / Pow2(-nBits);
    nBits := nBits + mLen;
    m := ReadMantissa(buffer, offset, isBE, f, m, nBits, i, d);
    r := Assemble(f, s == 1, e, m, eMax, eBias);
  }

  lemma FirstIs(buffer: array<Byte>, offset: nat, isBE: bool, f: Format)
    requires offset + f.NBytes() <= buffer.Length
    ensures buffer[offset + Position(f, isBE, f.NBytes() - 1)] == First(f, isBE, buffer[offset..offset + f.NBytes()])
  {
  }

  /** The byte that the exponent shares with the mantissa, after its own. */
  method ReadExponent(buffer: array<Byte>, offset: nat, isBE: bool, f: Format, e0: nat, nBits0: int, i0: int, d: int)
    returns (e: nat, nBits: int, i: int)
    requires offset + f.NBytes() <= buffer.Length && nBits0 == 8 - f.Shared()
    requires i0 == Position(f, isBE, f.NBytes() - 2) && d == if isBE then 1 else -1
    requires e0 == First(f, isBE, buffer[offset..offset + f.NBytes()]) % 128
    ensures e == FirstTwo(f, isBE, buffer[offset..offset + f.NBytes()]) && nBits + f.Shared() == 0 && i == Position(f, isBE, f.Lows() - 1)
  {
    hide First;
    e, nBits, i := e0, nBits0, i0;
    ghost var b := buffer[offset..offset + f.NBytes()];
    while nBits > 0
      invariant nBits == nBits0 || nBits == nBits0 - 8
      invariant nBits == nBits0 ==> i == i0 && e == e0
      invariant nBits == nBits0 - 8 ==> i == i0 + d && e == FirstTwo(f, isBE, b)
    {
      assert buffer[offset + i] == b[i];
      e := e * 256 + buffer[offset + i];
      i := i + d;
      nBits := nBits - 8;
    }
  }

  /** The bytes of nothing but mantissa. */
  method ReadMantissa(buffer: array<Byte>, offset: nat, isBE: bool, f: Format, m0: nat, nBits0: int, i0: int, d: int) returns (m: nat)
    requires offset + f.NBytes() <= buffer.Length && nBits0 == 8 * f.Lows() && i0 == Position(f, isBE, f.Lows() - 1)
    requires d == if isBE then 1 else -1
    ensures m == ReadLows(f, isBE, buffer[offset..offset + f.NBytes()], m0, f.Lows())
  {
    hide ReadLows;
    ghost var b, q: int := buffer[offset..offset + f.NBytes()], f.Lows();
    var nBits, i := nBits0, i0;
    m := m0;
    while nBits > 0
      invariant 0 <= q <= f.Lows() && nBits == 8 * q && (q > 0 ==> i == Position(f, isBE, q - 1))
      invariant ReadLows(f, isBE, b, m, q) == ReadLows(f, isBE, b, m0, f.Lows())
      decreases nBits
    {
      assert buffer[offset + i] == b[i];
      ReadLowsStep(f, isBE, b, m, q);
      m := m * 256 + buffer[offset + i];
      i := i + d;
      nBits := nBits - 8;
      q := q - 1;
    }
    ReadLowsEnds(f, isBE, b, m);
  }

  /** The number the fields stand for. */
  method Assemble(f: Format, negative: bool, e0: nat, m0: nat, eMax: int, eBias: int) returns (r: Number)
    requires eMax == f.EMax() && eBias == f.EBias()
    ensures r == FromFields(f, negative, e0, m0)
  {
    hide Exp2;
    var e: int, m := e0, m0;
    if e == 0 {
      e := 1 - eBias;
    } else if e == eMax {
      return if m != 0 then NaN else Infinite(negative);
    } else {
      m := m + f.Hidden();
      e := e - eBias;
    }
    ProductIs(m as real, Exp2(e - f.MLen()), e - f.MLen());
    hide Shift;
    return Finite(negative, m as real * Exp2(e - f.MLen()));
  }

  lemma ProductIs(v: real, c: real, n: int)
    requires c == Exp2(n)
    ensures v * c == Shift(v, n)
  {
  }

  /** The exponent, corrected, with its power of two for c, and the value rounded. Only the sum is not exact. */
  method Round(f: Format, magnitude: real, estimate: int) returns (e: int, c: real, value: real)
    requires magnitude >= 0.0
    ensures e == FirstExponent(magnitude, estimate) && c == Exp2(-e) && value == RoundedUp(f, magnitude, e)
  {
    hide Exp2, Shift, Rounded;
    var rt := if f.Single? then Exp2(-24) - Exp2(-77) else 0.0;
    e := estimate;
    c := Exp2(-e);
    value := magnitude;
    ProductIs(value, c, -e);
    if value * c < 1.0 {
      Exp2Step(-e);
      e := e - 1;
      c := c * 2.0;
    }
    ProductIs(rt, Exp2(1 - f.EBias()), 1 - f.EBias());
    if e + f.EBias() >= 1 {
      assert rt / c == Added(f, e);
      value := Rounded(value + rt / c);
    } else {
      assert rt * Exp2(1 - f.EBias()) == Added(f, e);
      value := Rounded(value + rt * Exp2(1 - f.EBias()));
    }
  }

  /** The exponent and the mantissa to write, from the magnitude of a number. */
  method Scale(f: Format, magnitude: real, estimate: int) returns (e: int, m: real)
    requires magnitude >= 0.0
    ensures (e, m) == Fields(f, magnitude, estimate)
  {
    hide Exp2, Shift, Rounding;
    if magnitude == 0.0 {
      m := Smallest(f);
      return 0, m;
    }
    var c, value;
    e, c, value := Round(f, magnitude, estimate);
    ProductIs(value, c, -e);
    hide FirstExponent, RoundedUp;
    if value * c >= 2.0 {
      Exp2Step(-e - 1);
      e := e + 1;
      c := c / 2.0;
    }
    ProductIs(value, c, -e);
    assert Fields(f, magnitude, estimate) == Split(f, value, e);
    if e + f.EBias() >= f.EMax() {
      m := 0.0;
      e := f.EMax();
    } else if e + f.EBias() >= 1 {
      m := TimesHidden(f, value * c - 1.0);
      e := e + f.EBias();
    } else {
      m := Subnormal(f, value);
      e := 0;
    }
  }

  method Subnormal(f: Format, value: real) returns (m: real)
    ensures m == Shift(Shift(value, f.EBias() - 1), f.MLen())
  {
    ProductIs(value, Exp2(f.EBias() - 1), f.EBias() - 1);
    hide Exp2, Shift;
    m := TimesHidden(f, value * Exp2(f.EBias() - 1));
  }

  method TimesHidden(f: Format, value: real) returns (m: real)
    ensures m == Shift(value, f.MLen())
  {
    m := value * Exp2(f.MLen());
  }

  /** Zero, rounded: no other correction applies, its logarithm being minus infinity. */
  method Smallest(f: Format) returns (m: real)
    ensures m == Shift(Shift(Rounded(Added(f, -f.EBias())), f.EBias() - 1), f.MLen())
  {
    hide Exp2, Shift, Rounded;
    var rt := if f.Single? then Exp2(-24) - Exp2(-77) else 0.0;
    ProductIs(rt, Exp2(1 - f.EBias()), 1 - f.EBias());
    assert 0.0 + rt * Exp2(1 - f.EBias()) == Added(f, -f.EBias());
    m := Subnormal(f, Rounded(0.0 + rt * Exp2(1 - f.EBias())));
  }

  lemma QuotientOfFloor(m: real, whole: nat, n: nat)
    requires m >= 0.0 && m.Floor == whole / Pow256(n)
    ensures m / 256.0 >= 0.0 && (m / 256.0).Floor == whole / Pow256(n + 1)
  {
    QuotientStep(whole, n);
  }

  /** Bytes up to the n-th hold the fields. */
  ghost predicate Filled(buffer: array<Byte>, offset: nat, isBE: bool, f: Format, negative: bool, e: nat, m: nat, n: nat)
    requires offset + f.NBytes() <= buffer.Length && n <= f.NBytes()
    reads buffer
  {
    forall q :: 0 <= q < n ==> buffer[offset + Position(f, isBE, q)] == ByteOf(f, negative, e, m, q)
  }

  ghost predicate Around(buffer: array<Byte>, offset: nat, f: Format, was: seq<Byte>)
    requires offset + f.NBytes() <= buffer.Length == |was|
    reads buffer
  {
    buffer[..offset] == was[..offset] && buffer[offset + f.NBytes()..] == was[offset + f.NBytes()..]
  }

  /** One byte goes out, where the bytes before it hold the fields. */
  method PutByte(buffer: array<Byte>, offset: nat, isBE: bool, f: Format, ghost negative: bool, ghost e: nat, ghost m: nat,
                 ghost n: nat, i: nat, byte: Byte)
    requires offset + f.NBytes() <= buffer.Length && n < f.NBytes() && i == Position(f, isBE, n)
    requires Filled(buffer, offset, isBE, f, negative, e, m, n)
    modifies buffer
    ensures buffer[offset + i] == byte && Filled(buffer, offset, isBE, f, negative, e, m, n)
    ensures byte == ByteOf(f, negative, e, m, n) ==> Filled(buffer, offset, isBE, f, negative, e, m, n + 1)
    ensures buffer[..offset] == old(buffer[..offset]) && buffer[offset + f.NBytes()..] == old(buffer[offset + f.NBytes()..])
  {
    hide ByteOf;
    buffer[offset + i] := byte;
  }

  /** The bytes of nothing but mantissa; what is left of it remains. */
  method WriteLows(buffer: array<Byte>, offset: nat, isBE: bool, f: Format, ghost negative: bool, ghost e: nat, m0: real)
    returns (m: real, mLen: int)
    requires offset + f.NBytes() <= buffer.Length && m0 >= 0.0
    modifies buffer
    ensures Filled(buffer, offset, isBE, f, negative, e, m0.Floor, f.Lows()) && Around(buffer, offset, f, old(buffer[..]))
    ensures m >= 0.0 && m.Floor == m0.Floor / Pow256(f.Lows()) && mLen == f.Shared()
  {
    Constants(f);
    OverOne(m0.Floor);
    hide Pow256, Top;
    var i, d := if isBE then f.NBytes() - 1 else 0, if isBE then -1 else 1;
    m, mLen := m0, f.MLen();
    ghost var n := 0;
    while mLen >= 8
      invariant 0 <= n <= f.Lows() && mLen == f.MLen() - 8 * n && i == Position(f, isBE, n)
      invariant m >= 0.0 && m.Floor == m0.Floor / Pow256(n)
      invariant Filled(buffer, offset, isBE, f, negative, e, m0.Floor, n) && Around(buffer, offset, f, old(buffer[..]))
    {
      PutByte(buffer, offset, isBE, f, negative, e, m0.Floor, n, i, m.Floor % 256);
      QuotientOfFloor(m, m0.Floor, n);
      i := i + d;
      m := m / 256.0;
      mLen := mLen - 8;
      n := n + 1;
    }
  }

  lemma {:induction false} OrBound(a: nat, b: nat, n: nat)
    requires a < Pow2(n) && b < Pow2(n)
    ensures Or(a, b) < Pow2(n)
  {
    if n > 0 {
      OrBound(a / 2, b / 2, n - 1);
    }
  }

  /** A byte stays a byte. */
  lemma OrByte(b: Byte, negative: bool)
    ensures Or(b, if negative then 128 else 0) < 256
  {
    assert Pow2(8) == 256 by {
      assert Pow2(4) == 16;
    }
    OrBound(b, if negative then 128 else 0, 8);
  }

  /** The two top bytes, but for the sign. */
  method WriteTop(buffer: array<Byte>, offset: nat, isBE: bool, f: Format, ghost negative: bool, ghost e0: nat, ghost m: nat, top: nat)
    requires offset + f.NBytes() <= buffer.Length && top == Top(f, e0, m)
    requires Filled(buffer, offset, isBE, f, negative, e0, m, f.Lows())
    modifies buffer
    ensures Filled(buffer, offset, isBE, f, negative, e0, m, f.NBytes() - 1) && Around(buffer, offset, f, old(buffer[..]))
    ensures buffer[offset + Position(f, isBE, f.NBytes() - 1)] == top / 256 % 256
  {
    hide Top, Or, Pow256;
    var n: int, e, d: int := f.Lows(), top as real, if isBE then -1 else 1;
    var i: int := Position(f, isBE, n);
    var eLen := 15;
    while eLen > 0
      invariant f.Lows() <= n <= f.NBytes() && eLen == 15 - 8 * (n - f.Lows())
      invariant n < f.NBytes() ==> i == Position(f, isBE, n)
      invariant e >= 0.0 && (n == f.Lows() ==> e.Floor == top) && (n == f.Lows() + 1 ==> e.Floor == top / 256)
      invariant Filled(buffer, offset, isBE, f, negative, e0, m, if n < f.NBytes() then n else n - 1)
      invariant n == f.NBytes() ==> buffer[offset + Position(f, isBE, n - 1)] == top / 256 % 256
      invariant Around(buffer, offset, f, old(buffer[..]))
    {
      PutByte(buffer, offset, isBE, f, negative, e0, m, n, i, e.Floor % 256);
      i := i + d;
      e := e / 256.0;
      eLen := eLen - 8;
      n := n + 1;
    }
  }

  method WriteSign(buffer: array<Byte>, offset: nat, isBE: bool, f: Format, negative: bool, ghost e: nat, ghost m: nat)
    requires offset + f.NBytes() <= buffer.Length && Filled(buffer, offset, isBE, f, negative, e, m, f.NBytes() - 1)
    requires buffer[offset + Position(f, isBE, f.NBytes() - 1)] == Top(f, e, m) / 256 % 256
    modifies buffer
    ensures Filled(buffer, offset, isBE, f, negative, e, m, f.NBytes()) && Around(buffer, offset, f, old(buffer[..]))
  {
    hide Top, Or, Pow256;
    var i := Position(f, isBE, f.NBytes() - 1);
    OrByte(buffer[offset + i], negative);
    buffer[offset + i] := Or(buffer[offset + i], if negative then 128 else 0);
  }

  /** The fields go out from the least significant byte on, and the sign at last. */
  method WriteFields(buffer: array<Byte>, offset: nat, isBE: bool, f: Format, negative: bool, e: nat, m0: real)
    requires offset + f.NBytes() <= buffer.Length && m0 >= 0.0
    modifies buffer
    ensures Packed(f, isBE, buffer[offset..offset + f.NBytes()], negative, e, m0.Floor)
    ensures Around(buffer, offset, f, old(buffer[..]))
  {
    hide ByteOf, Or, Pow256, Pow2, Top, Filled, Packed;
    var m, mLen := WriteLows(buffer, offset, isBE, f, negative, e, m0);
    TopIs(f, e, m0.Floor, mLen);
    var top := Or(e * Pow2(mLen), m.Floor);
    WriteTop(buffer, offset, isBE, f, negative, e, m0.Floor, top);
    WriteSign(buffer, offset, isBE, f, negative, e, m0.Floor);
    FilledIsPacked(buffer, offset, isBE, f, negative, e, m0.Floor);
  }

  lemma TopIs(f: Format, e: nat, m: nat, mLen: int)
    requires mLen == f.Shared()
    ensures 0 <= e * Pow2(mLen) && Or(e * Pow2(mLen), High(m, f.Lows())) == Top(f, e, m)
  {
    hide Or, Pow256, Pow2;
    RoomIsPower(f);
  }

  lemma FilledIsPacked(buffer: array<Byte>, offset: nat, isBE: bool, f: Format, negative: bool, e: nat, m: nat)
    requires offset + f.NBytes() <= buffer.Length && Filled(buffer, offset, isBE, f, negative, e, m, f.NBytes())
    ensures Packed(f, isBE, buffer[offset..offset + f.NBytes()], negative, e, m)
  {
    hide ByteOf;
    var b := buffer[offset..offset + f.NBytes()];
    assert forall q :: 0 <= q < f.NBytes() ==> b[Position(f, isBE, q)] == buffer[offset + Position(f, isBE, q)];
  }

  /** floor is the true floor of the logarithm; estimate is what floor(log(value) / LN2) came to. */
  method WriteIEEE754(buffer: array<Byte>, value: Number, offset: nat, isBE: bool, f: Format, estimate: int, ghost floor: int)
    requires offset + f.NBytes() <= buffer.Length && Estimated(value, floor, estimate)
    modifies buffer
    ensures var (e, m) := Written(f, value, estimate);
      e >= 0 && m >= 0.0 && Packed(f, isBE, buffer[offset..offset + f.NBytes()], Negative(value), e, m.Floor)
    ensures buffer[..offset] == old(buffer[..offset]) && buffer[offset + f.NBytes()..] == old(buffer[offset + f.NBytes()..])
  {
    var e, m;
    match value {
      case NaN => e, m := f.EMax(), 1.0;
      case Infinite(_) => e, m := f.EMax(), 0.0;
      case Finite(_, magnitude) =>
        FieldsSound(f, magnitude, floor, estimate);
        e, m := Scale(f, magnitude, estimate);
    }
    hide Fields;
    WriteFields(buffer, offset, isBE, f, Negative(value), e, m);
  }
}
