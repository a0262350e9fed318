/** What an encoding looks like, in the numbers and characters of RFC 3492: its parts, its digits, the bias, and encodings in full. */
module PunycodeForms {
  import opened Arithmetic
  import opened Results
  import opened Bootstring
  import opened Punycode
  import opened PunycodeRoundTrip

  // ---------- digits and thresholds ----------

  /** Section 5: a to z are 0 to 25, and 0 to 9 are 26 to 35. */
  lemma DigitsAreLetters(d: nat)
    requires d < 36
    ensures DigitToBasic(d) == if d < 26 then 'a' as int + d else '0' as int + d - 26
  {
  }

  /** The decoder takes upper case as well; what is above z is 36, which is no digit, and what is between is negative. */
  lemma LettersAreDigits(c: CodeUnit)
    ensures 'a' as int <= c <= 'z' as int ==> BasicToDigit(c) == c - 'a' as int
    ensures 'A' as int <= c <= 'Z' as int ==> BasicToDigit(c) == c - 'A' as int
    ensures '0' as int <= c <= '9' as int ==> BasicToDigit(c) == c - '0' as int + 26
    ensures c > 'z' as int ==> BasicToDigit(c) == 36
    ensures '9' as int < c < 'A' as int || 'Z' as int < c < 'a' as int ==> BasicToDigit(c) < 0
    ensures c < '0' as int ==> BasicToDigit(c) == c - 22
  {
  }

  /** What ends a number too early: the end of the input, and a character above z. */
  lemma ReadIntRefuses(input: seq<CodeUnit>, index: nat, i: nat, w: nat, k: int, bias: int)
    requires i <= 0x8000_0000 && w > 0
    ensures index >= |input| ==> ReadInt(input, index, i, w, k, bias) == Err(InvalidInput)
    ensures index < |input| && input[index] > 'z' as int ==> ReadInt(input, index, i, w, k, bias) == Err(Overflow)
  {
  }

  /** What utf16encode takes for a surrogate: any value whose low sixteen bits are one's. */
  lemma MaskIs(value: nat)
    ensures MasksToSurrogate(value) <==> 0xD800 <= value % 0x1_0000 < 0xE000
  {
  }

  /** A surrogate pair has ten bits from each unit. */
  lemma PairIs(high: nat, low: nat)
    requires high < 0x400 && low < 0x400
    ensures PointsOf([0xD800 + high, 0xDC00 + low]) == Ok([0x1_0000 + 0x400 * high + low])
  {
    var s: seq<CodeUnit> := [0xD800 + high, 0xDC00 + low];
    UnitIsPoint(s[0]);
    assert s[2..] == [] && PointsOf([]) == Ok([]);
    assert [0x1_0000 + 0x400 * high + low] + [] == [0x1_0000 + 0x400 * high + low];
    DivModUnique(high, 0x36, 0x400);
    DivModUnique(low, 0x37, 0x400);
  }

  /** The threshold is the position's distance from the bias, but no less than 1 and no more than 26. */
  lemma ThresholdIs(k: int, bias: int)
    ensures k - bias <= 1 ==> Threshold(k, bias) == 1
    ensures 1 <= k - bias <= 26 ==> Threshold(k, bias) == k - bias
    ensures k - bias >= 26 ==> Threshold(k, bias) == 26
  {
  }

  // ---------- the bias ----------

  function Power35(j: nat): (p: nat)
    ensures p > 0
  {
    if j == 0 then 1 else 35 * Power35(j - 1)
  }

  lemma PowerStep(delta: nat, j: nat)
    ensures delta / 35 / Power35(j) == delta / Power35(j + 1)
  {
    DivDiv(delta, 35, Power35(j));
  }

  lemma ScaleStep(delta: nat, k: nat)
    ensures Scale(delta, k) == if delta > 455 then Scale(delta / 35, k + 36) else k + 36 * delta / (delta + 38)
  {
  }

  lemma PowerZero(delta: nat)
    ensures delta / Power35(0) == delta
  {
  }

  lemma {:induction false} ScaleIs(delta: nat, k: nat) returns (j: nat)
    ensures var q := delta / Power35(j);
      0 <= q <= 455 && Scale(delta, k) == k + 36 * j + 36 * q / (q + 38)
    ensures forall i: nat :: i < j ==> delta / Power35(i) > 455
    decreases delta
  {
    hide Scale, Power35;
    ScaleStep(delta, k);
    PowerZero(delta);
    if delta > 455 {
      j := ScaleIs(delta / 35, k + 36);
      PowerStep(delta, j);
      forall i: nat | i < j + 1 ensures delta / Power35(i) > 455 {
        if i > 0 {
          PowerStep(delta, i - 1);
        }
      }
      j := j + 1;
    } else {
      j := 0;
    }
  }

  /**
   * Section 6.1 in closed form: the damped delta is divided by 35 as often as it takes to be no more than 455, and each time counts
   * for 36.
   */
  lemma AdaptedBiasIs(delta: nat, numPoints: nat, firstTime: bool) returns (j: nat)
    requires numPoints > 0
    ensures var damped := if firstTime then delta / 700 else delta / 2;
      var total := damped + damped / numPoints;
      && total >= 0 && (forall i: nat :: i < j ==> total / Power35(i) > 455)
      && var q := total / Power35(j);
      0 <= q <= 455 && AdaptedBias(delta, numPoints, firstTime) == 36 * j + 36 * q / (q + 38)
  {
    hide Scale;
    j := ScaleIs(Damped(delta, numPoints, firstTime), 0);
  }

  // ---------- the parts of an encoding ----------

  /** The code points below 128. */
  function Ascii(cps: seq<nat>): seq<CodeUnit> {
    if cps == [] then [] else (if cps[0] < 128 then [cps[0]] else []) + Ascii(cps[1..])
  }

  lemma {:induction false} BasicsAreAscii(cps: seq<nat>)
    ensures Basics(cps) == Ascii(cps) && |Ascii(cps)| == |Below(cps, 128)|
  {
    if cps != [] {
      BasicsAreAscii(cps[1..]);
      assert [] + Ascii(cps[1..]) == Ascii(cps[1..]);
    }
  }

  /** What precedes the digits: the code points below 128 and a hyphen, unless there are none. */
  function Head(cps: seq<nat>): seq<CodeUnit> {
    if Ascii(cps) == [] then [] else Ascii(cps) + [0x2D]
  }

  lemma StartIs(cps: seq<nat>)
    ensures EncoderStart(cps) == Encoder(0, 72, |Ascii(cps)|, Head(cps)) && |Ascii(cps)| == |Below(cps, 128)|
  {
    BasicsAreAscii(cps);
  }

  /** Every encoding is that, and then lower-case letters and decimal digits alone. */
  lemma EncodedForm(cps: seq<nat>)
    requires CodePoints(cps) && EncodedPoints(cps).Ok?
    ensures var p := EncodedPoints(cps).value;
      Head(cps) <= p && forall k :: |Head(cps)| <= k < |p| ==> 'a' as int <= p[k] <= 'z' as int || '0' as int <= p[k] <= '9' as int
  {
    StartIs(cps);
    BasicsAreAscii(cps);
    EncodeExtends(cps, 128, |Basics(cps)|, EncoderStart(cps));
  }

  predicate LastHyphen(input: seq<CodeUnit>, d: nat) {
    d < |input| && input[d] == 0x2D && forall k :: d < k < |input| ==> input[k] != 0x2D
  }

  /**
   * What is decoded: the characters before the last hyphen, none of them above ASCII, are the output that the numbers after it are
   * put into, from the point 128 on; without a hyphen, or with none but at the beginning, all of the input is numbers.
   */
  lemma DecodedForm(input: seq<CodeUnit>, d: nat)
    ensures LastHyphen(input, d) && (exists k :: 0 <= k < d && input[k] >= 128) ==> DecodedPoints(input) == Err(NotBasic)
    ensures LastHyphen(input, d) && (forall k :: 0 <= k < d ==> input[k] < 128) ==>
      DecodedPoints(input) == DecodeFrom(input, if d > 0 then d + 1 else 0, Decoder(128, 0, 72, AsPoints(input[..d])))
    ensures 0x2D !in input ==> DecodedPoints(input) == DecodeFrom(input, 0, Decoder(128, 0, 72, []))
  {
    hide DecodeFrom;
    if LastHyphen(input, d) {
      LastIs(input, d);
    } else if 0x2D !in input {
      assert LastDelimiter(input) == -1;
      assert AsPoints(input[..0]) == [];
    }
  }

  lemma LastIs(input: seq<CodeUnit>, d: nat)
    requires LastHyphen(input, d)
    ensures LastDelimiter(input) == d
  {
    hide LastDelimiter;
    var k := LastDelimiter(input);
    assert k >= 0 ==> input[k] == 0x2D;
  }

  // ---------- what the digits are ----------

  /** A stretch of a pass without the code point it is for. */
  lemma {:induction false} PassOver(cps: seq<nat>, j: nat, end: nat, n: nat, countPlusOne: nat, basicLength: nat, s: Encoder)
    requires countPlusOne > 0 && j <= end <= |cps| && n !in cps[j..end] && s.delta + |Below(cps[j..end], n)| <= 0x7FFF_FFFF
    ensures EncodePass(cps, j, n, countPlusOne, basicLength, s)
         == EncodePass(cps, end, n, countPlusOne, basicLength, s.(delta := s.delta + |Below(cps[j..end], n)|))
    decreases end - j
  {
    hide EncodePass, Emit;
    if j < end {
      assert cps[j..end][0] == cps[j] && cps[j..end][1..] == cps[j + 1..end];
      EncodePassNext(cps, j, n, countPlusOne, basicLength, s);
      PassOver(cps, j + 1, end, n, countPlusOne, basicLength, if cps[j] < n then s.(delta := s.delta + 1) else s);
    }
  }

  /** The number that the decoder has to go from the point n, at the beginning of a lap, to reach cps[p]. */
  function Distance(cps: seq<nat>, n: nat, p: nat, delta: nat, handled: nat): nat
    requires p < |cps| && n <= cps[p]
  {
    MulGrows(cps[p] - n, 0, handled + 1);
    delta + (cps[p] - n) * (handled + 1) + |Below(cps[..p], cps[p])|
  }

  /** cps[p] is the next code point, and is there once. */
  predicate NextOnce(cps: seq<nat>, n: nat, p: nat) {
    p < |cps| && n <= cps[p] && forall k :: 0 <= k < |cps| && k != p ==> cps[k] < n || cps[k] > cps[p]
  }

  /** What one round adds: the distance to the code point, spelled, and what it leaves: the rest of the lap. */
  function Rounded(cps: seq<nat>, n: nat, p: nat, basicLength: nat, e: Encoder): Encoder
    requires p < |cps| && n <= cps[p]
  {
    var distance := Distance(cps, n, p, e.delta, e.handled);
    Encoder(|Below(cps[p + 1..], cps[p])| + 1, AdaptedBias(distance, e.handled + 1, e.handled == basicLength), e.handled + 1,
            e.output + Spelling(DigitsOf(distance, 36, e.bias)))
  }

  lemma PassOnce(cps: seq<nat>, n: nat, p: nat, basicLength: nat, e: Encoder)
    requires NextOnce(cps, n, p) && Distance(cps, n, p, e.delta, e.handled) <= 0x7FFF_FFFF && |cps| <= 0x7FFF_FFFF
    ensures var skipped, e' := e.delta + (cps[p] - n) * (e.handled + 1), Rounded(cps, n, p, basicLength, e);
      && 0 <= skipped <= 0x7FFF_FFFF && e'.delta > 0 && e'.handled == e.handled + 1
      && EncodePass(cps, 0, cps[p], e.handled + 1, basicLength, e.(delta := skipped)) == Ok(e'.(delta := e'.delta - 1))
  {
    hide EncodePass, DigitsOf, AdaptedBias, Spelling, Below;
    MulGrows(cps[p] - n, 0, e.handled + 1);
    var s, m, c := e.(delta := e.delta + (cps[p] - n) * (e.handled + 1)), cps[p], e.handled + 1;
    assert cps[0..p] == cps[..p] && cps[p + 1..|cps|] == cps[p + 1..];
    PassOver(cps, 0, p, m, c, basicLength, s);
    var s1 := s.(delta := s.delta + |Below(cps[..p], m)|);
    EncodePassNext(cps, p, m, c, basicLength, s1);
    PassOver(cps, p + 1, |cps|, m, c, basicLength, Emit(s1, c, basicLength));
    EncodePassEnds(cps, m, c, basicLength, Rounded(cps, n, p, basicLength, e).(delta := |Below(cps[p + 1..], m)|));
  }

  lemma NextIs(cps: seq<nat>, n: nat, p: nat)
    requires CodePoints(cps) && NextOnce(cps, n, p)
    ensures NextPoint(cps, 0, n, MAX_INT) == cps[p] && |Below(cps, n)| < |cps|
  {
    hide Below;
    SomeLeft(cps, n, p);
    NothingBetween(cps, n);
  }

  lemma SkipIs(e: Encoder, points: nat)
    requires e.delta + points * (e.handled + 1) <= 0x7FFF_FFFF
    ensures points * (e.handled + 1) >= 0 && Skip(e, points) == Ok(e.(delta := e.delta + points * (e.handled + 1)))
  {
    MulGrows(points, 0, e.handled + 1);
    QuotientCompares(points, 0x7FFF_FFFF - e.delta, e.handled + 1);
  }

  lemma PassMakesRound(cps: seq<nat>, n: nat, m: nat, basicLength: nat, e: Encoder, s: Encoder, e': Encoder)
    requires CodePoints(cps) && e.handled == |Below(cps, n)| < |cps| && NextPoint(cps, 0, n, MAX_INT) == m
    requires n <= m && Skip(e, m - n) == Ok(s) && EncodePass(cps, 0, m, e.handled + 1, basicLength, s) == Ok(e')
    ensures e'.handled == |Below(cps, m + 1)|
    ensures EncodeFrom(cps, n, basicLength, e) == EncodeFrom(cps, m + 1, basicLength, e'.(delta := e'.delta + 1))
  {
    hide Below, NextPoint, Skip, EncodePass;
    NothingBetween(cps, n);
    assert cps[0..] == cps;
  }

  /** One round of the encoder, for a code point that is there once. */
  lemma RoundOnce(cps: seq<nat>, n: nat, p: nat, basicLength: nat, e: Encoder)
    requires CodePoints(cps) && p < |cps| && n <= cps[p] && NextOnce(cps, n, p) && e.handled == |Below(cps, n)|
    requires Distance(cps, n, p, e.delta, e.handled) <= 0x7FFF_FFFF && |cps| <= 0x7FFF_FFFF
    ensures var e' := Rounded(cps, n, p, basicLength, e);
      e'.handled == |Below(cps, cps[p] + 1)|
      && EncodeFrom(cps, n, basicLength, e) == EncodeFrom(cps, cps[p] + 1, basicLength, e')
  {
    hide EncodeFrom, EncodePass, Rounded, Distance, Below, NextPoint, Skip, CodePoints, NextOnce;
    NextIs(cps, n, p);
    PassOnce(cps, n, p, basicLength, e);
    SkipIs(e, cps[p] - n);
    var e' := Rounded(cps, n, p, basicLength, e);
    PassMakesRound(cps, n, cps[p], basicLength, e, e.(delta := e.delta + (cps[p] - n) * (e.handled + 1)), e'.(delta := e'.delta - 1));
  }

  lemma {:induction false} SomeLeft(cps: seq<nat>, n: nat, p: nat)
    requires p < |cps| && n <= cps[p]
    ensures |Below(cps, n)| < |cps|
  {
    if p > 0 {
      SomeLeft(cps[1..], n, p - 1);
    }
  }

  predicate AllAscii(s: seq<nat>) {
    forall k :: 0 <= k < |s| ==> s[k] < 128
  }

  lemma {:induction false} AsciiBelow(s: seq<nat>, bound: nat)
    requires AllAscii(s) && bound >= 128
    ensures |Below(s, bound)| == |s|
  {
    if s != [] {
      AsciiBelow(s[1..], bound);
    }
  }

  lemma {:induction false} BelowParts(a: seq<nat>, b: seq<nat>, bound: nat)
    ensures |Below(a + b, bound)| == |Below(a, bound)| + |Below(b, bound)|
  {
    if a == [] {
      assert a + b == b;
    } else {
      assert (a + b)[1..] == a[1..] + b;
      BelowParts(a[1..], b, bound);
    }
  }

  /**
   * A word with one code point beyond ASCII, in full: the digits are those of the distance from 128 in laps of all places in the
   * word, and the code points before it.
   */
  lemma OneForeign(a: seq<nat>, c: nat, b: seq<nat>)
    requires AllAscii(a) && AllAscii(b) && c >= 128 && CodePoints([c]) && |a| + |b| < 0x7FFF_FFFF
    requires (c - 128) * (|a| + |b| + 1) + |a| <= 0x7FFF_FFFF
    ensures var cps, distance := a + [c] + b, (c - 128) * (|a| + |b| + 1) + |a|;
      CodePoints(cps) && distance >= 0 && EncodedPoints(cps) == Ok(Head(cps) + Spelling(DigitsOf(distance, 36, 72)))
  {
    hide DigitsOf, Spelling, AdaptedBias, EncodeFrom, Below, Head, Basics;
    var cps, p := a + [c] + b, |a|;
    MulGrows(c - 128, 0, |a| + |b| + 1);
    assert [c][0] == c && CodePoints(cps);
    assert cps[..p] == a && cps[p + 1..] == b && cps[p] == c;
    StartIs(cps);
    BasicsAreAscii(cps);
    CountsAround(a, c, b);
    var e := EncoderStart(cps);
    RoundOnce(cps, 128, p, e.handled, e);
    EncodeEnds(cps, c + 1, e.handled, Rounded(cps, 128, p, e.handled, e));
  }

  lemma CountsAround(a: seq<nat>, c: nat, b: seq<nat>)
    requires AllAscii(a) && AllAscii(b) && c >= 128
    ensures |Below(a + [c] + b, 128)| == |a| + |b| && |Below(a + [c] + b, c + 1)| == |a| + |b| + 1
    ensures |Below(a, c)| == |a| && |Below(b, c)| == |b|
  {
    AsciiBelow(a, c);
    AsciiBelow(b, c);
    AsciiBelow(a, 128);
    AsciiBelow(b, 128);
    AsciiBelow(a, c + 1);
    AsciiBelow(b, c + 1);
    BelowParts(a + [c], b, 128);
    BelowParts(a, [c], 128);
    BelowParts(a + [c], b, c + 1);
    BelowParts(a, [c], c + 1);
    assert [c][1..] == [];
  }

  // ---------- the guards ----------

  /** What the digit after the last one would count: each digit before it leaves room for so many values of the next. */
  function Weight(ds: seq<nat>, k: int, bias: int): (w: nat)
    ensures w >= 1
  {
    if ds == [] || ds[0] < Threshold(k, bias) then 1
    else
      var t, more := Threshold(k, bias), Weight(ds[1..], k + 36, bias);
      MulPositive(36 - t, more);
      (36 - t) * more
  }

  lemma WeightGrows(i: nat, digit: nat, b: nat, v: nat, w: nat, more: nat)
    requires w >= 1 && more >= 1 && b >= 1
    ensures i + (digit + b * v) * w == i + digit * w + v * (w * b) >= i + digit * w >= i
    ensures w * (b * more) == w * b * more >= w * b >= w
  {
    Distribute(digit, b, v, w);
    MulPositive(w, b);
    MulPositive(w * b, more);
    assert w * (b * more) == w * b * more;
  }

  /** Reading a number overflows if and only if it leads beyond 2147483647, or its last digit's weight does. */
  lemma {:induction false} ReadIntGuard(input: seq<CodeUnit>, index: nat, ds: seq<nat>, i: nat, w: nat, k: int, bias: int)
    requires SpelledAt(input, index, ds) && i <= 0x8000_0000 && 0 < w <= 0x7FFF_FFFF && ValueOf(ds, k, bias).Some?
    ensures var (v, count) := ValueOf(ds, k, bias).value;
      v * w >= 0 && ReadInt(input, index, i, w, k, bias)
      == if i + v * w <= 0x7FFF_FFFF && w * Weight(ds, k, bias) <= 0x7FFF_FFFF then Ok((i + v * w, index + count)) else Err(Overflow)
    decreases |ds|
  {
    hide SpelledAt, ReadInt, ValueOf, BasicToDigit;
    var t := Threshold(k, bias);
    SomeDigit(ds, k, bias);
    var digit, rest := ds[0], ds[1..];
    assert [digit] + rest == ds;
    ValueOfCons(digit, rest, k, bias);
    SpelledFirst(input, index, ds);
    ReadIntStep(input, index, digit, i, w, k, bias);
    QuotientCompares(digit, 0x7FFF_FFFF - i, w);
    MulGrows(digit, 0, w);
    if digit >= t {
      var (v, count) := ValueOf(rest, k + 36, bias).value;
      WeightGrows(i, digit, 36 - t, v, w, Weight(rest, k + 36, bias));
      QuotientCompares(w, 0x7FFF_FFFF, 36 - t);
      if i + digit * w <= 0x7FFF_FFFF && w * (36 - t) <= 0x7FFF_FFFF {
        ReadIntGuard(input, index + 1, rest, i + digit * w, w * (36 - t), k + 36, bias);
      }
    }
  }

  /** Taking it in overflows if and only if the point does. */
  lemma AdvanceGuard(s: Decoder, i': nat)
    requires s.n <= 0x7FFF_FFFF && s.i <= i' <= 0x7FFF_FFFF
    ensures InRange(s) && Advance(s, i') == if s.n + i' / (|s.output| + 1) > 0x7FFF_FFFF then Err(Overflow) else Ok(Decoder(
      s.n + i' / (|s.output| + 1), i' % (|s.output| + 1) + 1, AdaptedBias(i' - s.i, |s.output| + 1, s.i == 0),
      s.output[..i' % (|s.output| + 1)] + [s.n + i' / (|s.output| + 1)] + s.output[i' % (|s.output| + 1)..]))
  {
    LapBounds(i', |s.output| + 1);
  }

  lemma {:induction false} PassOverflows(cps: seq<nat>, j: nat, end: nat, n: nat, countPlusOne: nat, basicLength: nat, s: Encoder)
    requires countPlusOne > 0 && j <= end <= |cps| && n !in cps[j..end]
    requires s.delta <= 0x7FFF_FFFF < s.delta + |Below(cps[j..end], n)|
    ensures EncodePass(cps, j, n, countPlusOne, basicLength, s) == Err(Overflow)
    decreases end - j
  {
    hide EncodePass, Emit;
    assert j < end;
    assert cps[j..end][0] == cps[j] && cps[j..end][1..] == cps[j + 1..end];
    EncodePassNext(cps, j, n, countPlusOne, basicLength, s);
    if cps[j] >= n || s.delta < 0x7FFF_FFFF {
      PassOverflows(cps, j + 1, end, n, countPlusOne, basicLength, if cps[j] < n then s.(delta := s.delta + 1) else s);
    }
  }

  lemma RoundFails(cps: seq<nat>, n: nat, m: nat, basicLength: nat, e: Encoder)
    requires CodePoints(cps) && e.handled == |Below(cps, n)| < |cps| && NextPoint(cps, 0, n, MAX_INT) == m >= n
    requires var s := Skip(e, m - n); s == Err(Overflow) || (s.Ok? && EncodePass(cps, 0, m, e.handled + 1, basicLength, s.value) == Err(Overflow))
    ensures EncodeFrom(cps, n, basicLength, e) == Err(Overflow)
  {
    hide Below, NextPoint, Skip, EncodePass;
    NothingBetween(cps, n);
    assert cps[0..] == cps;
  }

  /** The word with one code point beyond ASCII overflows if and only if the distance is more than 2147483647. */
  lemma OneForeignOverflows(a: seq<nat>, c: nat, b: seq<nat>)
    requires AllAscii(a) && AllAscii(b) && c >= 128 && CodePoints([c]) && |a| + |b| < 0x7FFF_FFFF
    ensures CodePoints(a + [c] + b)
    ensures EncodedPoints(a + [c] + b) == Err(Overflow) <==> (c - 128) * (|a| + |b| + 1) + |a| > 0x7FFF_FFFF
  {
    hide DigitsOf, Spelling, AdaptedBias, EncodeFrom, Below, Head, Basics, EncodePass;
    var cps, p := a + [c] + b, |a|;
    MulGrows(c - 128, 0, |a| + |b| + 1);
    assert [c][0] == c && CodePoints(cps);
    if (c - 128) * (|a| + |b| + 1) + |a| <= 0x7FFF_FFFF {
      OneForeign(a, c, b);
    } else {
      assert cps[0..p] == a && cps[p] == c;
      StartIs(cps);
      BasicsAreAscii(cps);
      CountsAround(a, c, b);
      NextIs(cps, 128, p);
      var e := EncoderStart(cps);
      QuotientCompares(c - 128, 0x7FFF_FFFF, e.handled + 1);
      if Skip(e, c - 128).Ok? {
        PassOverflows(cps, 0, p, c, e.handled + 1, e.handled, Skip(e, c - 128).value);
      }
      RoundFails(cps, 128, c, e.handled, e);
    }
  }

  // ---------- words ----------

  predicate IsAscii(s: string) {
    forall k :: 0 <= k < |s| ==> s[k] as int < 128
  }

  /** The code units of characters below 128. */
  function Letters(s: string): (r: seq<CodeUnit>)
    requires IsAscii(s)
    ensures |r| == |s| && forall k :: 0 <= k < |s| ==> r[k] == s[k] as int
  {
    seq(|s|, k requires 0 <= k < |s| => s[k] as int)
  }

  /** The encoding and the decoding of a word. */
  predicate Stands(word: seq<CodeUnit>, encoding: seq<CodeUnit>) {
    Encoded(word) == Ok(encoding) && Decoded(encoding) == Ok(word)
  }

  predicate NoSurrogates(word: seq<CodeUnit>) {
    forall k :: 0 <= k < |word| ==> !(0xD800 <= word[k] < 0xE000)
  }

  lemma {:induction false} PointsAreUnits(word: seq<CodeUnit>)
    requires NoSurrogates(word)
    ensures PointsOf(word) == Ok(AsPoints(word))
  {
    if word != [] {
      UnitIsPoint(word[0]);
      PointsAreUnits(word[1..]);
      assert AsPoints(word) == [word[0] as nat] + AsPoints(word[1..]);
    }
  }

  lemma WordStands(word: seq<CodeUnit>, points: seq<nat>, encoding: seq<CodeUnit>)
    requires NoSurrogates(word) && |word| <= SMALL && points == AsPoints(word)
    ensures CodePoints(points)
    ensures EncodedPoints(points) == Ok(encoding) ==> Stands(word, encoding)
  {
    PointsAreUnits(word);
    if EncodedPoints(points) == Ok(encoding) {
      forall k | 0 <= k < |points| ensures !MasksToSurrogate(points[k]) {
        UnitIsPoint(word[k]);
      }
      SmallRoundTrip(word);
    }
  }

  lemma {:induction false} AsciiIs(s: seq<nat>)
    requires AllAscii(s)
    ensures |Ascii(s)| == |s| && forall k :: 0 <= k < |s| ==> Ascii(s)[k] as nat == s[k]
  {
    if s != [] {
      AsciiIs(s[1..]);
    }
  }

  lemma {:induction false} AsciiAround(a: seq<nat>, c: nat, b: seq<nat>)
    requires c >= 128
    ensures Ascii(a + [c] + b) == Ascii(a + b)
  {
    if a == [] {
      assert a + [c] + b == [c] + b && a + b == b && ([c] + b)[1..] == b;
    } else {
      AsciiAround(a[1..], c, b);
      assert (a + [c] + b)[1..] == a[1..] + [c] + b && (a + b)[1..] == a[1..] + b;
    }
  }

  lemma HeadOfBcher()
    ensures Head([0x42, 0xFC, 0x63, 0x68, 0x65, 0x72]) == [0x42, 0x63, 0x68, 0x65, 0x72, 0x2D]
  {
    hide Ascii;
    var a, b: seq<nat> := [0x42], [0x63, 0x68, 0x65, 0x72];
    AsciiAround(a, 0xFC, b);
    AsciiIs(a + b);
    assert a + [0xFC] + b == [0x42, 0xFC, 0x63, 0x68, 0x65, 0x72];
    assert Ascii(a + b) == [0x42, 0x63, 0x68, 0x65, 0x72];
  }

  /** B, U+00FC, c, h, e, r. */
  lemma Buecher()
    ensures Stands([0x42, 0xFC, 0x63, 0x68, 0x65, 0x72], Letters("Bcher-kva"))
  {
    hide EncodedPoints, Head, DigitsOf, Spelling, Stands;
    var a, c, b: seq<nat> := [0x42], 0xFC, [0x63, 0x68, 0x65, 0x72];
    var points: seq<nat> := [0x42, 0xFC, 0x63, 0x68, 0x65, 0x72];
    assert a + [c] + b == points;
    WordStands([0x42, 0xFC, 0x63, 0x68, 0x65, 0x72], points, Letters("Bcher-kva"));
    OneForeign(a, c, b);
    DigitsOfBuecher();
    SpellingIs([10, 21, 0], "kva");
    HeadOfBcher();
    assert [0x42, 0x63, 0x68, 0x65, 0x72, 0x2D] + Letters("kva") == Letters("Bcher-kva");
  }

  lemma DigitsOfBuecher()
    ensures DigitsOf(745, 36, 72) == [10, 21, 0]
  {
    hide DigitsOf;
    DigitsOfStep(745, 36, 72);
    DigitsOfStep(21, 72, 72);
    DigitsOfStep(0, 108, 72);
  }

  lemma {:induction false} SpellingIs(ds: seq<nat>, s: string)
    requires AllDigits(ds) && |s| == |ds|
    requires forall k :: 0 <= k < |s| ==> s[k] as int == if ds[k] < 26 then 'a' as int + ds[k] else '0' as int + ds[k] - 26
    ensures Spelling(ds) == Letters(s)
  {
    hide Spelling, Letters, DigitToBasic;
    if ds == [] {
      NothingSpelled();
    } else {
      DigitsAreLetters(ds[0]);
      SpellingIs(ds[1..], s[1..]);
      SpellingParts(ds, s);
    }
  }

  lemma NothingSpelled()
    ensures Spelling([]) == [] && Letters("") == []
  {
  }

  lemma SpellingParts(ds: seq<nat>, s: string)
    requires AllDigits(ds) && ds != [] && s != "" && IsAscii(s)
    ensures Spelling(ds) == [DigitToBasic(ds[0])] + Spelling(ds[1..]) && Letters(s) == [s[0] as int] + Letters(s[1..])
  {
    hide DigitToBasic;
  }

  /** One round in numbers: the distance, its digits, and the bias after it. */
  lemma RoundedIs(cps: seq<nat>, n: nat, p: nat, e: Encoder, distance: nat, ds: seq<nat>, digits: string, bias: nat)
    requires p < |cps| && n <= cps[p] && Distance(cps, n, p, e.delta, e.handled) == distance
    requires DigitsOf(distance, 36, e.bias) == ds && AdaptedBias(distance, e.handled + 1, e.handled == 0) == bias
    requires |digits| == |ds| && forall k :: 0 <= k < |ds| ==> digits[k] as int == if ds[k] < 26 then 'a' as int + ds[k] else '0' as int + ds[k] - 26
    ensures IsAscii(digits)
    ensures Rounded(cps, n, p, 0, e) == Encoder(|Below(cps[p + 1..], cps[p])| + 1, bias, e.handled + 1, e.output + Letters(digits))
  {
    hide DigitsOf, AdaptedBias, Spelling, Below, Distance;
    SpellingIs(ds, digits);
  }

  lemma LettersOf(a: string, b: string)
    requires IsAscii(a) && IsAscii(b)
    ensures IsAscii(a + b) && Letters(a) + Letters(b) == Letters(a + b)
  {
  }

  lemma WithoutAscii(cps: seq<nat>)
    requires CodePoints(cps) && forall k :: 0 <= k < |cps| ==> cps[k] >= 128
    ensures |Below(cps, 128)| == 0 && EncodedPoints(cps) == EncodeFrom(cps, 128, 0, Encoder(0, 72, 0, []))
  {
    hide EncodeFrom;
    NoneBelow(cps);
    StartIs(cps);
    BasicsAreAscii(cps);
  }

  lemma {:induction false} NoneBelow(cps: seq<nat>)
    requires forall k :: 0 <= k < |cps| ==> cps[k] >= 128
    ensures |Below(cps, 128)| == 0
  {
    if cps != [] {
      NoneBelow(cps[1..]);
    }
  }

  const NIHONGO: seq<nat> := [0x65E5, 0x672C, 0x8A9E]

  /** What the encoder has after so many of them. */
  function NihongoAfter(k: nat): Encoder
    requires k <= 3
  {
    if k == 0 then Encoder(0, 72, 0, [])
    else if k == 1 then Encoder(1, 23, 1, Letters("wgv"))
    else if k == 2 then Encoder(1, 45, 2, Letters("wgv71a"))
    else Encoder(1, 81, 3, Letters("wgv71a119e"))
  }

  lemma NihongoFirst()
    requires CodePoints(NIHONGO) && |Below(NIHONGO, 128)| == 0
    ensures EncodeFrom(NIHONGO, 128, 0, NihongoAfter(0)) == EncodeFrom(NIHONGO, 0x65E6, 0, NihongoAfter(1)) && |Below(NIHONGO, 0x65E6)| == 1
  {
    hide EncodeFrom, Letters, CodePoints, Rounded, DigitsOf, AdaptedBias;
    assert NIHONGO[..0] == [] && NIHONGO[1..] == [0x672C, 0x8A9E];
    DigitsOfFirst();
    Biases();
    RoundOnce(NIHONGO, 128, 0, 0, NihongoAfter(0));
    RoundedIs(NIHONGO, 128, 0, NihongoAfter(0), 25957, [22, 6, 21], "wgv", 23);
    assert [] + Letters("wgv") == Letters("wgv");
  }

  lemma NihongoSecond()
    requires CodePoints(NIHONGO) && |Below(NIHONGO, 0x65E6)| == 1
    ensures EncodeFrom(NIHONGO, 0x65E6, 0, NihongoAfter(1)) == EncodeFrom(NIHONGO, 0x672D, 0, NihongoAfter(2)) && |Below(NIHONGO, 0x672D)| == 2
  {
    hide EncodeFrom, Letters, CodePoints, Rounded, DigitsOf, AdaptedBias;
    assert NIHONGO[..1] == [0x65E5] && NIHONGO[2..] == [0x8A9E];
    DigitsOfSecond();
    Biases();
    RoundOnce(NIHONGO, 0x65E6, 1, 0, NihongoAfter(1));
    RoundedIs(NIHONGO, 0x65E6, 1, NihongoAfter(1), 654, [33, 27, 0], "71a", 45);
    LettersOf("wgv", "71a");
    assert "wgv" + "71a" == "wgv71a";
  }

  lemma NihongoThird()
    requires CodePoints(NIHONGO) && |Below(NIHONGO, 0x672D)| == 2
    ensures EncodeFrom(NIHONGO, 0x672D, 0, NihongoAfter(2)) == EncodeFrom(NIHONGO, 0x8A9F, 0, NihongoAfter(3)) && |Below(NIHONGO, 0x8A9F)| == 3
  {
    hide EncodeFrom, Letters, CodePoints, Rounded, DigitsOf, AdaptedBias;
    assert NIHONGO[..2] == [0x65E5, 0x672C] && NIHONGO[3..] == [];
    DigitsOfThird();
    Biases();
    RoundOnce(NIHONGO, 0x672D, 2, 0, NihongoAfter(2));
    RoundedIs(NIHONGO, 0x672D, 2, NihongoAfter(2), 27222, [27, 27, 35, 4], "119e", 81);
    LettersOf("wgv71a", "119e");
    assert "wgv71a" + "119e" == "wgv71a119e";
  }

  lemma DigitsOfFirst()
    ensures DigitsOf(25957, 36, 72) == [22, 6, 21]
  {
    hide DigitsOf;
    DigitsOfStep(25957, 36, 72);
    DigitsOfStep(741, 72, 72);
    DigitsOfStep(21, 108, 72);
  }

  lemma DigitsOfSecond()
    ensures DigitsOf(654, 36, 23) == [33, 27, 0]
  {
    hide DigitsOf;
    DigitsOfStep(654, 36, 23);
    DigitsOfStep(27, 72, 23);
    DigitsOfStep(0, 108, 23);
  }

  lemma DigitsOfThird()
    ensures DigitsOf(27222, 36, 45) == [27, 27, 35, 4]
  {
    hide DigitsOf;
    DigitsOfStep(27222, 36, 45);
    DigitsOfStep(777, 72, 45);
    DigitsOfStep(75, 108, 45);
    DigitsOfStep(4, 144, 45);
  }

  lemma Biases()
    ensures AdaptedBias(25957, 1, true) == 23 && AdaptedBias(654, 2, false) == 45 && AdaptedBias(27222, 3, false) == 81
  {
    hide Scale;
    ScaleStep(74, 0);
    ScaleStep(490, 0);
    ScaleStep(14, 36);
    ScaleStep(18148, 0);
    ScaleStep(518, 36);
    ScaleStep(14, 72);
  }

  /** U+65E5, U+672C, U+8A9E: three code points, each with a bias of its own. */
  lemma Nihongo()
    ensures Stands([0x65E5, 0x672C, 0x8A9E], Letters("wgv71a119e"))
  {
    hide EncodedPoints, EncodeFrom, Below, Stands, Letters, CodePoints;
    WordStands([0x65E5, 0x672C, 0x8A9E], NIHONGO, Letters("wgv71a119e"));
    WithoutAscii(NIHONGO);
    NihongoFirst();
    NihongoSecond();
    NihongoThird();
    EncodeEnds(NIHONGO, 0x8A9F, 0, NihongoAfter(3));
  }
}
