/** Powers of two, and the sum of two numbers as a double: rounded to 53 significant bits, halfway cases to the even one. */
module Doubles {
  // ---------- powers of two ----------

  function Exp2(n: int): (r: real)
    ensures r > 0.0
    decreases if n < 0 then -n else n
  {
    if n == 0 then 1.0 else if n > 0 then 2.0 * Exp2(n - 1) else Exp2(n + 1) / 2.0
  }

  /** v times a power of two. */
  function Shift(v: real, n: int): real {
    v * Exp2(n)
  }

  lemma Exp2Step(n: int)
    ensures Exp2(n + 1) == 2.0 * Exp2(n)
  {
  }

  lemma ShiftStep(v: real, n: int)
    ensures Shift(v, n + 1) == Shift(2.0 * v, n) == 2.0 * Shift(v, n)
    ensures Shift(v, n) == Shift(v / 2.0, n + 1)
  {
    Exp2Step(n);
    hide Exp2;
    assert v * (2.0 * Exp2(n)) == 2.0 * v * Exp2(n);
    assert v / 2.0 * (2.0 * Exp2(n)) == v * Exp2(n);
  }

  lemma ShiftZero(v: real)
    ensures Shift(v, 0) == v
  {
  }

  lemma ShiftSum(a: real, b: real, n: int)
    ensures Shift(a, n) + Shift(b, n) == Shift(a + b, n) && Shift(a, n) - Shift(b, n) == Shift(a - b, n)
  {
    hide Exp2;
  }

  lemma ShiftMonotone(a: real, b: real, n: int)
    ensures a <= b <==> Shift(a, n) <= Shift(b, n)
    ensures a < b <==> Shift(a, n) < Shift(b, n)
  {
    hide Exp2;
    if a < b {
      assert (b - a) * Exp2(n) > 0.0;
    } else if a > b {
      assert (a - b) * Exp2(n) > 0.0;
    }
  }

  lemma {:induction false} ShiftShift(v: real, a: int, b: int)
    ensures Shift(Shift(v, a), b) == Shift(v, a + b)
    decreases if b < 0 then -b else b
  {
    var w := Shift(v, a);
    hide Exp2, Shift;
    if b == 0 {
      ShiftZero(w);
    } else if b > 0 {
      ShiftShift(v, a, b - 1);
      ShiftStep(w, b - 1);
      ShiftStep(v, a + b - 1);
    } else {
      ShiftShift(v, a, b + 1);
      ShiftStep(w, b);
      ShiftStep(v, a + b);
    }
  }

  lemma {:induction false} ShiftGrows(v: real, a: int, b: int)
    requires a <= b && v >= 0.0
    ensures Shift(v, a) <= Shift(v, b)
    decreases b - a
  {
    hide Exp2, Shift;
    if a < b {
      ShiftGrows(v, a, b - 1);
      ShiftStep(v, b - 1);
      ShiftZero(0.0);
      ShiftPositive(v, b - 1);
    }
  }

  lemma ShiftPositive(v: real, n: int)
    ensures v >= 0.0 <==> Shift(v, n) >= 0.0
    ensures v == 0.0 <==> Shift(v, n) == 0.0
  {
    ShiftMonotone(0.0, v, n);
    ShiftMonotone(v, 0.0, n);
    assert 0.0 * Exp2(n) == 0.0;
  }

  lemma DividedByExp2(v: real, n: int)
    ensures v / Exp2(-n) == Shift(v, n)
  {
    ShiftShift(v, n, -n);
    ShiftZero(v);
    hide Exp2;
    assert Shift(v, n) * Exp2(-n) == v;
  }

  /** The logarithm has one floor. */
  lemma FloorUnique(v: real, a: int, b: int)
    requires Shift(1.0, a) <= v < Shift(1.0, a + 1) && Shift(1.0, b) <= v < Shift(1.0, b + 1)
    ensures a == b
  {
    if a < b {
      ShiftGrows(1.0, a + 1, b);
    } else if b < a {
      ShiftGrows(1.0, b + 1, a);
    }
  }

  function Pow2(n: nat): (p: nat)
    ensures p > 0
  {
    if n == 0 then 1 else 2 * Pow2(n - 1)
  }

  /** A whole number times a power of two that is not negative. */
  lemma {:induction false} WholeShift(n: int, j: nat)
    ensures Shift(n as real, j) == (n * Pow2(j)) as real
  {
    hide Exp2, Shift;
    if j == 0 {
      ShiftZero(n as real);
    } else {
      WholeShift(n, j - 1);
      ShiftStep(n as real, j - 1);
      assert n * (2 * Pow2(j - 1)) == 2 * (n * Pow2(j - 1));
    }
  }

  // ---------- rounding ----------

  const TWO_TO_53 := 0x20_0000_0000_0000

  /** The exponent of the largest power of two up to x. */
  function Binade(x: real): (b: int)
    requires x > 0.0
    ensures Shift(1.0, b) <= x < Shift(1.0, b + 1)
    decreases if x >= 2.0 then x.Floor else if x >= 1.0 then 0 else 1 + (1.0 / x).Floor
  {
    if x >= 2.0 then
      assert x / 2.0 >= 2.0 ==> (x / 2.0).Floor < x.Floor;
      var b := Binade(x / 2.0);
      ShiftStep(1.0, b); ShiftStep(1.0, b + 1);
      b + 1
    else if x < 1.0 then
      Reciprocal(x);
      var b := Binade(2.0 * x);
      ShiftStep(1.0, b - 1); ShiftStep(1.0, b);
      b - 1
    else
      ShiftZero(1.0); ShiftStep(1.0, 0);
      0
  }

  lemma Reciprocal(x: real)
    requires 0.0 < x < 1.0
    ensures 1.0 / (2.0 * x) == 1.0 / x / 2.0 && (2.0 * x < 1.0 ==> (1.0 / (2.0 * x)).Floor < (1.0 / x).Floor) && (1.0 / x).Floor >= 0
  {
    assert x * (1.0 / x) == 1.0;
    assert 2.0 * x * (1.0 / x / 2.0) == 1.0;
  }

  /** The nearest whole number, the even one of two. */
  function NearestEven(y: real): int {
    var n := y.Floor;
    if y - n as real < 0.5 || (y - n as real == 0.5 && n % 2 == 0) then n else n + 1
  }

  /** The nearest number of 53 bits. */
  function Rounded(x: real): real
    requires x >= 0.0
  {
    if x == 0.0 then 0.0 else Shift(NearestEven(Shift(x, 52 - Binade(x))) as real, Binade(x) - 52)
  }

  lemma BinadeIs(x: real, b: int)
    requires Shift(1.0, b) <= x < Shift(1.0, b + 1)
    ensures x > 0.0 && Binade(x) == b
  {
    ShiftPositive(1.0, b);
    FloorUnique(x, Binade(x), b);
  }

  /** Rounding to whole numbers keeps the order, and whole numbers. */
  lemma NearestMonotone(a: real, b: real)
    requires a <= b
    ensures NearestEven(a) <= NearestEven(b)
  {
  }

  lemma NearestWhole(n: int)
    ensures NearestEven(n as real) == n
  {
  }

  lemma Pow2Half(n: nat)
    requires n > 0
    ensures Pow2(n) == 2 * Pow2(n - 1)
  {
  }

  lemma Pow2Ten(n: nat)
    ensures Pow2(n + 10) == 0x400 * Pow2(n)
  {
    hide Pow2;
    Pow2Half(n + 10);
    Pow2Half(n + 9);
    Pow2Half(n + 8);
    Pow2Half(n + 7);
    Pow2Half(n + 6);
    Pow2Half(n + 5);
    Pow2Half(n + 4);
    Pow2Half(n + 3);
    Pow2Half(n + 2);
    Pow2Half(n + 1);
  }

  lemma Pow2Of23()
    ensures Pow2(23) == 0x80_0000
  {
    Pow2Ten(13);
    Pow2Ten(3);
  }

  lemma Pow2Of51()
    ensures Pow2(51) * 4 == TWO_TO_53
  {
    Pow2Ten(41);
    Pow2Ten(31);
    Pow2Ten(21);
    Pow2Ten(11);
    Pow2Ten(1);
  }

  lemma TwoTo53(n: int)
    ensures Shift(TWO_TO_53 as real, n) == Shift(1.0, n + 53)
  {
    hide Exp2, Shift, Pow2;
    Pow2Half(53);
    Pow2Half(52);
    Pow2Of51();
    WholeShift(1, 53);
    ShiftShift(1.0, 53, n);
  }

  /** A number's significand. */
  lemma Significand(x: real, b: int)
    requires Shift(1.0, b) <= x < Shift(1.0, b + 1)
    ensures Shift(1.0, 52) <= Shift(x, 52 - b) < Shift(1.0, 53)
  {
    hide Exp2, Shift;
    ShiftMonotone(Shift(1.0, b), x, 52 - b);
    ShiftMonotone(x, Shift(1.0, b + 1), 52 - b);
    ShiftShift(1.0, b, 52 - b);
    ShiftShift(1.0, b + 1, 52 - b);
  }

  lemma {:induction false} RoundedMonotone(a: real, b: real)
    requires 0.0 <= a <= b
    ensures 0.0 <= Rounded(a) <= Rounded(b)
  {
    hide Exp2, Shift, NearestEven, Binade;
    RoundedIn(b);
    if a > 0.0 {
      var i, j := Binade(a), Binade(b);
      RoundedIn(a);
      if i == j {
        ShiftMonotone(a, b, 52 - i);
        NearestMonotone(Shift(a, 52 - i), Shift(b, 52 - i));
        ShiftMonotone(NearestEven(Shift(a, 52 - i)) as real, NearestEven(Shift(b, 52 - i)) as real, i - 52);
      } else if i < j {
        ShiftGrows(1.0, i + 1, j);
      } else {
        ShiftGrows(1.0, j + 1, i);
      }
    }
  }

  /** Rounding does not leave the binade, but for its upper end. */
  lemma RoundedIn(x: real)
    requires x >= 0.0
    ensures if x == 0.0 then Rounded(x) == 0.0 else Shift(1.0, Binade(x)) <= Rounded(x) <= Shift(1.0, Binade(x) + 1)
    ensures Rounded(x) >= 0.0
  {
    hide Exp2, Shift, NearestEven, Binade;
    if x > 0.0 {
      var b := Binade(x);
      var y := Shift(x, 52 - b);
      Significand(x, b);
      WholeShift(1, 52);
      WholeShift(1, 53);
      NearestMonotone(Shift(1.0, 52), y);
      NearestMonotone(y, Shift(1.0, 53));
      NearestWhole(Pow2(52));
      NearestWhole(Pow2(53));
      ShiftShift(1.0, 52, b - 52);
      ShiftShift(1.0, 53, b - 52);
      ShiftMonotone(Shift(1.0, 52), NearestEven(y) as real, b - 52);
      ShiftMonotone(NearestEven(y) as real, Shift(1.0, 53), b - 52);
      ShiftPositive(1.0, b);
    }
  }

  /** Numbers of up to 53 bits are not rounded. */
  lemma RoundedWhole(n: nat, s: int)
    requires n < TWO_TO_53
    ensures Shift(n as real, s) >= 0.0 && Rounded(Shift(n as real, s)) == Shift(n as real, s)
  {
    hide Exp2, Shift, NearestEven, Binade;
    var x := Shift(n as real, s);
    ShiftPositive(n as real, s);
    if n > 0 {
      var b := Binade(x);
      ShiftMonotone(n as real, TWO_TO_53 as real, s);
      TwoTo53(s);
      if b > s + 52 {
        ShiftGrows(1.0, s + 53, b);
      }
      ShiftShift(n as real, s, 52 - b);
      WholeShift(n, s + 52 - b);
      NearestWhole(n * Pow2(s + 52 - b));
      ShiftShift(x, 52 - b, b - 52);
      ShiftZero(x);
    }
  }

  /** Rounding does not depend on the unit. */
  lemma RoundedShift(x: real, n: int)
    requires x >= 0.0
    ensures Shift(x, n) >= 0.0 && Rounded(Shift(x, n)) == Shift(Rounded(x), n)
  {
    hide Exp2, Shift, NearestEven, Binade;
    ShiftPositive(x, n);
    if x > 0.0 {
      var b := Binade(x);
      ShiftMonotone(Shift(1.0, b), x, n);
      ShiftMonotone(x, Shift(1.0, b + 1), n);
      ShiftShift(1.0, b, n);
      ShiftShift(1.0, b + 1, n);
      BinadeIs(Shift(x, n), b + n);
      ShiftShift(x, n, 52 - (b + n));
      ShiftShift(NearestEven(Shift(x, 52 - b)) as real, b - 52, n);
    } else {
      ShiftPositive(0.0, n);
    }
  }

  /** Next to nothing less than a whole number is rounded up to it, even where there are as many bits as can be. */
  lemma RoundedUpToWhole(n: nat, tiny: real)
    requires 0 < n < Pow2(51) && 0.0 < tiny <= Shift(1.0, -54)
    ensures n as real - tiny > 0.0 && Rounded(n as real - tiny) >= n as real
  {
    hide Exp2, Shift, Pow2, NearestEven, Binade;
    TinyIs();
    var x := n as real - tiny;
    var b := Binade(x);
    BinadeBounds(n, x, b);
    var y, m := Shift(x, 52 - b), n * Pow2(52 - b);
    Pow2Half(52 - b);
    assert m == 2 * (n * Pow2(52 - b - 1));
    WholeShift(n, 52 - b);
    ShiftSum(n as real, tiny, 52 - b);
    ShiftPositive(tiny, 52 - b);
    ShiftMonotone(tiny, Shift(1.0, -54), 52 - b);
    ShiftShift(1.0, -54, 52 - b);
    ShiftGrows(1.0, -54 + (52 - b), -1);
    NearestUp(y, m);
    ShiftMonotone(m as real, NearestEven(y) as real, b - 52);
    ShiftShift(n as real, 52 - b, b - 52);
    ShiftZero(n as real);
  }

  lemma TinyIs()
    ensures Shift(1.0, -1) == 0.5 && Shift(1.0, -2) == 0.25 && 0.0 < Shift(1.0, -54) < 0.25
    ensures Shift(1.0, 0) == 1.0
  {
    hide Exp2, Shift;
    ShiftZero(1.0);
    ShiftStep(1.0, -1);
    ShiftStep(1.0, -2);
    ShiftStep(1.0, -3);
    ShiftPositive(1.0, -54);
    ShiftPositive(1.0, -3);
    ShiftGrows(1.0, -54, -3);
  }

  lemma BinadeBounds(n: nat, x: real, b: int)
    requires 0 < n < Pow2(51) && n as real - 0.25 <= x < n as real && Shift(1.0, b) <= x < Shift(1.0, b + 1)
    ensures -1 <= b <= 51
  {
    hide Exp2, Shift, Pow2;
    TinyIs();
    WholeShift(1, 51);
    if b > 51 {
      ShiftGrows(1.0, 51, b);
    }
    if b < -1 {
      ShiftGrows(1.0, b + 1, -1);
    }
  }

  lemma NearestUp(y: real, m: int)
    requires m % 2 == 0 && m as real - 0.5 <= y < m as real
    ensures NearestEven(y) >= m
  {
    assert y.Floor == m - 1;
  }

  /** What rounding to whole units adds: a half, or half as much, and next to nothing less. */
  predicate IsHalf(t: real, tiny: real) {
    (t == 0.5 && tiny == Shift(1.0, -54)) || (t == 0.25 && 0.0 < tiny <= Shift(1.0, -54))
  }

  lemma HalfExceeds(t: real, tiny: real)
    requires IsHalf(t, tiny)
    ensures 0.0 < tiny < t <= 0.5 && tiny <= Shift(1.0, -54)
  {
    TinyIs();
  }

  lemma RoundedBelow(x: real, n: nat, s: int, bound: real)
    requires 0.0 <= x <= Shift(n as real, s) < bound && n < TWO_TO_53
    ensures Rounded(x) < bound
  {
    RoundedMonotone(x, Shift(n as real, s));
    RoundedWhole(n, s);
  }

  /** In quarters. */
  lemma SumBelowQuarters(k: nat, n: int, t: real, tiny: real, whole: nat)
    requires n >= -2 && IsHalf(t, tiny) && whole < Pow2(51) && 0.0 <= Shift(k as real, n) + t < whole as real + 1.0
    ensures 0.0 <= Shift(k as real, n) + t - tiny && Rounded(Shift(k as real, n) + t - tiny) < whole as real + 1.0
  {
    hide Exp2, Shift, Pow2, Rounded;
    TinyIs();
    Pow2Of51();
    ShiftPositive(k as real, n);
    var w := Shift(k as real, n);
    WholeShift(k, n + 2);
    ShiftStep(k as real, n);
    ShiftStep(k as real, n + 1);
    UpToThreeQuarters(k * Pow2(n + 2), w, t, whole);
    QuartersOf(4 * whole + 3);
    RoundedBelow(w + t - tiny, 4 * whole + 3, -2, whole as real + 1.0);
  }

  lemma UpToThreeQuarters(q: int, w: real, t: real, whole: nat)
    requires q as real == 4.0 * w && (t == 0.5 || t == 0.25) && w + t < whole as real + 1.0
    ensures w + t <= (4 * whole + 3) as real / 4.0
  {
    var r := q + if t == 0.5 then 2 else 1;
    assert r as real == 4.0 * (w + t);
    assert r < 4 * whole + 4;
  }

  lemma QuartersOf(q: nat)
    ensures Shift(q as real, -2) == q as real / 4.0 && Shift(q as real, -1) == q as real / 2.0
  {
    ShiftStep(q as real, -1);
    ShiftStep(q as real, -2);
    ShiftZero(q as real);
  }

  /** In smaller units, of which the number and the half have so few that their sum needs no rounding. */
  lemma SumBelowFine(k: nat, j: int, t: real, tiny: real, half: nat)
    requires j >= 0 && k + half < TWO_TO_53 && Shift(half as real, -j) == t && IsHalf(t, tiny)
    ensures 0.0 <= Shift(k as real, -j) + t - tiny && Rounded(Shift(k as real, -j) + t - tiny) <= Shift(k as real, -j) + t
  {
    hide Exp2, Shift, Pow2, Rounded;
    TinyIs();
    ShiftPositive(k as real, -j);
    ShiftSum(k as real, half as real, -j);
    RoundedMonotone(Shift(k as real, -j) + t - tiny, Shift((k + half) as real, -j));
    RoundedWhole(k + half, -j);
  }

  /** Or of which the sum has too many, so that the number itself is below the whole one. */
  lemma SumBelowCoarse(k: nat, j: int, t: real, tiny: real, whole: nat)
    requires 2 < j && k < TWO_TO_53 && IsHalf(t, tiny) && whole < Pow2(51) && (whole + 1) * Pow2(j) > TWO_TO_53
    ensures 0.0 <= Shift(k as real, -j) + t - tiny && Rounded(Shift(k as real, -j) + t - tiny) < whole as real + 1.0
  {
    hide Exp2, Shift, Pow2, Rounded;
    TinyIs();
    var w := Shift(k as real, -j);
    ShiftPositive(k as real, -j);
    if j <= 53 {
      BelowWhole(k, j, whole);
      QuartersOf(2 * whole + 1);
      Pow2Of51();
      RoundedBelow(w + t - tiny, 2 * whole + 1, -1, whole as real + 1.0);
    } else if j > 54 || t == 0.25 {
      BelowHalf(k, j);
      QuartersOf(3);
      RoundedBelow(w + t - tiny, 3, -2, whole as real + 1.0);
    } else {
      AlmostOne(k, w, whole);
    }
  }

  lemma BelowWhole(k: nat, j: int, whole: nat)
    requires 0 <= j <= 53 && k < TWO_TO_53 && (whole + 1) * Pow2(j) > TWO_TO_53
    ensures Shift(k as real, -j) < whole as real
  {
    hide Exp2, Shift, Pow2;
    WholeShift(whole + 1, j);
    BelowUnits(k, j, (whole + 1) as real);
    WholeShift(1, 53 - j);
    assert Pow2(53 - j) <= whole;
  }

  lemma BelowUnits(k: nat, j: int, n: real)
    requires k < TWO_TO_53 && Shift(n, j) > TWO_TO_53 as real
    ensures Shift(k as real, -j) < Shift(1.0, 53 - j) < n
  {
    hide Exp2, Shift;
    ShiftMonotone(k as real, TWO_TO_53 as real, -j);
    TwoTo53(-j);
    ShiftMonotone(TWO_TO_53 as real, Shift(n, j), -j);
    ShiftShift(n, j, -j);
    ShiftZero(n);
  }

  lemma BelowHalf(k: nat, j: int)
    requires j >= 54 && k < TWO_TO_53
    ensures Shift(k as real, -j) < 0.5 && (j > 54 ==> Shift(k as real, -j) < 0.25)
  {
    hide Exp2, Shift;
    TinyIs();
    ShiftMonotone(k as real, TWO_TO_53 as real, -j);
    TwoTo53(-j);
    ShiftGrows(1.0, 53 - j, -1);
    if j > 54 {
      ShiftGrows(1.0, 53 - j, -2);
    }
  }

  /** The numbers just below a half. */
  lemma AlmostOne(k: nat, w: real, whole: nat)
    requires k < TWO_TO_53 && w == Shift(k as real, -54)
    ensures 0.0 <= w + 0.5 - Shift(1.0, -54) && Rounded(w + 0.5 - Shift(1.0, -54)) < whole as real + 1.0
  {
    hide Exp2, Shift, Pow2, Rounded;
    TinyIs();
    var n := TWO_TO_53 - 1;
    ShiftPositive(k as real, -54);
    TwoTo53(-54);
    TwoTo53(-53);
    ShiftMonotone(k as real, n as real, -54);
    ShiftSum(TWO_TO_53 as real, 1.0, -54);
    ShiftSum(TWO_TO_53 as real, 1.0, -53);
    ShiftStep(1.0, -54);
    ShiftPositive(1.0, -53);
    RoundedBelow(w + 0.5 - Shift(1.0, -54), n, -53, whole as real + 1.0);
  }

  lemma HalfInUnits(j: int, t: real, tiny: real) returns (half: nat)
    requires 2 < j && IsHalf(t, tiny)
    ensures Shift(half as real, -j) == t && 2 * half <= Pow2(j)
  {
    var i := if t == 0.5 then 1 else 2;
    TinyIs();
    hide Exp2, Shift;
    half := Pow2(j - i);
    WholeShift(1, j - i);
    ShiftShift(1.0, j - i, -j);
  }

  lemma SumBelow(k: nat, n: int, t: real, tiny: real, whole: nat)
    requires k < TWO_TO_53 && IsHalf(t, tiny) && whole < Pow2(51) && 0.0 <= Shift(k as real, n) + t < whole as real + 1.0
    ensures 0.0 <= Shift(k as real, n) + t - tiny && Rounded(Shift(k as real, n) + t - tiny) < whole as real + 1.0
  {
    hide Exp2, Shift, Pow2, Rounded, IsHalf;
    if n >= -2 {
      SumBelowQuarters(k, n, t, tiny, whole);
    } else {
      var j := -n;
      if (whole + 1) * Pow2(j) > TWO_TO_53 {
        SumBelowCoarse(k, j, t, tiny, whole);
      } else {
        var half := HalfInUnits(j, t, tiny);
        ShiftSum(k as real, half as real, n);
        ShiftMonotone((k + half) as real, Shift((whole + 1) as real, j), n);
        WholeShift(whole + 1, j);
        ShiftShift((whole + 1) as real, j, n);
        ShiftZero((whole + 1) as real);
        SumBelowFine(k, j, t, tiny, half);
      }
    }
  }

  /**
   * The sum of a number of 53 bits and of a half less next to nothing, rounded to 53 bits and then cut off, is the sum with the half
   * itself, cut off: rounding the sum takes back what it lacks, and never more.
   */
  lemma SumFloor(k: nat, n: int, t: real, tiny: real)
    requires k < TWO_TO_53 && IsHalf(t, tiny) && Shift(k as real, n) < Shift(1.0, 50)
    ensures var w := Shift(k as real, n);
      w >= 0.0 && w + t - tiny > 0.0 && 0.0 <= Rounded(w + t - tiny) && Rounded(w + t - tiny).Floor == (w + t).Floor
  {
    hide Exp2, Shift, Pow2, Rounded, IsHalf;
    HalfExceeds(t, tiny);
    var w := Shift(k as real, n);
    ShiftPositive(k as real, n);
    var whole := (w + t).Floor;
    WholeShift(1, 50);
    Pow2Half(51);
    SumBelow(k, n, t, tiny, whole);
    SumAbove(w + t, tiny, whole);
  }

  lemma SumAbove(x: real, tiny: real, whole: nat)
    requires 0.0 < tiny <= Shift(1.0, -54) && whole < Pow2(51) && x >= whole as real && x - tiny >= 0.0
    ensures Rounded(x - tiny) >= whole as real
  {
    hide Shift, Pow2, Rounded;
    RoundedMonotone(0.0, x - tiny);
    if whole > 0 {
      RoundedUpToWhole(whole, tiny);
      RoundedMonotone(whole as real - tiny, x - tiny);
    }
  }
}
