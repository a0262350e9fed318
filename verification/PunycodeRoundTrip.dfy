/** Decoding inverts encoding: the encoder's and the decoder's state machines run in lock-step. */
module PunycodeRoundTrip {
  import opened Arithmetic
  import opened Results
  import opened Bootstring
  import opened Punycode

  // ---------- UTF-16 ----------

  /** No code point is one of those utf16encode takes for a surrogate. */
  predicate Representable(cps: seq<nat>) {
    forall k :: 0 <= k < |cps| ==> !MasksToSurrogate(cps[k])
  }

  lemma UnitsOfPair(lead: CodeUnit, trail: CodeUnit)
    requires 0xD800 <= lead < 0xDC00 && IsTrail(trail)
    ensures var v := PairValue(lead, trail);
      UnitsOf(v) == if MasksToSurrogate(v) then Err(BadUtf16Output) else Ok([lead, trail])
  {
    var hi, lo := lead % 0x400, trail % 0x400;
    assert PairValue(lead, trail) - 0x1_0000 == hi * 0x400 + lo;
    assert (hi * 0x400 + lo) / 0x400 == hi && (hi * 0x400 + lo) % 0x400 == lo;
    assert hi == lead - 0xD800 && lo == trail - 0xDC00;
  }

  /** The first code point of a well-formed string re-encodes to the units it was read from, if it does not mask to a surrogate. */
  lemma FirstPoint(s: seq<CodeUnit>) returns (cp: nat, width: nat)
    requires s != [] && PointsOf(s).Ok?
    ensures 1 <= width <= 2 && width <= |s|
    ensures PointsOf(s) == Prepend([cp], PointsOf(s[width..]))
    ensures UnitsOf(cp) == if MasksToSurrogate(cp) then Err(BadUtf16Output) else Ok(s[..width])
  {
    if MasksToSurrogate(s[0]) {
      cp, width := PairValue(s[0], s[1]), 2;
      UnitsOfPair(s[0], s[1]);
      assert s[..2] == [s[0], s[1]];
    } else {
      cp, width := s[0], 1;
      assert s[..1] == [s[0]];
    }
  }

  /** Re-encoding a well-formed string gives it back exactly when no code point masks to a surrogate. */
  lemma {:induction false} Utf16RoundTrip(s: seq<CodeUnit>)
    requires PointsOf(s).Ok?
    ensures var cps := PointsOf(s).value;
      StringOf(cps) == if Representable(cps) then Ok(s) else Err(BadUtf16Output)
  {
    hide MasksToSurrogate, UnitsOf, Representable, StringOf;
    if s == [] {
      EmptyString();
    } else {
      var cp, width := FirstPoint(s);
      Utf16RoundTrip(s[width..]);
      var tail := PointsOf(s[width..]).value;
      RepresentableCons(cp, tail);
      StringOfCons(s[..width], s[width..], cp, tail);
      assert PointsOf(s).value == [cp] + tail;
      assert s[..width] + s[width..] == s;
    }
  }

  lemma EmptyString()
    ensures Representable([]) && StringOf([]) == Ok([]) && PointsOf([]) == Ok([])
  {
  }

  lemma RepresentableCons(cp: nat, tail: seq<nat>)
    ensures Representable([cp] + tail) <==> !MasksToSurrogate(cp) && Representable(tail)
  {
    var cps := [cp] + tail;
    if Representable(cps) {
      assert !MasksToSurrogate(cps[0]);
      assert forall k :: 0 <= k < |tail| ==> tail[k] == cps[k + 1];
    }
  }

  lemma StringOfCons(first: seq<CodeUnit>, rest: seq<CodeUnit>, cp: nat, tail: seq<nat>)
    requires UnitsOf(cp) == if MasksToSurrogate(cp) then Err(BadUtf16Output) else Ok(first)
    requires StringOf(tail) == if Representable(tail) then Ok(rest) else Err(BadUtf16Output)
    ensures StringOf([cp] + tail)
         == if !MasksToSurrogate(cp) && Representable(tail) then Ok(first + rest) else Err(BadUtf16Output)
  {
    assert ([cp] + tail)[1..] == tail;
  }

  // ---------- reading one integer ----------

  predicate SpelledAt(input: seq<CodeUnit>, index: nat, ds: seq<nat>) {
    index + |ds| <= |input| && AllDigits(ds) &&
    forall j :: 0 <= j < |ds| ==> BasicToDigit(input[index + j]) == ds[j]
  }

  lemma SpelledFirst(input: seq<CodeUnit>, index: nat, ds: seq<nat>)
    requires SpelledAt(input, index, ds) && ds != []
    ensures index < |input| && BasicToDigit(input[index]) == ds[0] < BASE && SpelledAt(input, index + 1, ds[1..])
  {
    assert BasicToDigit(input[index + 0]) == ds[0];
    forall j | 0 <= j < |ds[1..]| ensures BasicToDigit(input[index + 1 + j]) == ds[1..][j] {
      assert BasicToDigit(input[index + (j + 1)]) == ds[j + 1];
    }
  }

  /** One turn of the decoder's digit loop. */
  lemma ReadIntStep(input: seq<CodeUnit>, index: nat, digit: nat, i: nat, w: nat, k: int, bias: int)
    requires i <= MAX_INT + 1 && w > 0 && index < |input| && BasicToDigit(input[index]) == digit < BASE
    ensures var t, r := Threshold(k, bias), ReadInt(input, index, i, w, k, bias);
      if digit > (MAX_INT - i) / w then r == Err(Overflow) && i + digit * w > MAX_INT
      else
        0 <= digit * w <= MAX_INT - i &&
        if digit < t then r == Ok((i + digit * w, index + 1))
        else if w > MAX_INT / (BASE - t) then r == Err(Overflow) && digit * w > MAX_INT / 35
        else w * (BASE - t) > 0 && r == ReadInt(input, index + 1, i + digit * w, w * (BASE - t), k + BASE, bias)
  {
    var t := Threshold(k, bias);
    QuotientCompares(digit, MAX_INT - i, w);
    MulGrows(digit, 0, w);
    MulPositive(w, BASE - t);
    if digit >= t && w > MAX_INT / (BASE - t) {
      WeightFits(digit, w, BASE - t);
    }
  }

  /** The decoder's digit loop computes ValueOf, unless a guard fires; no guard fires on small values. */
  lemma {:induction false} ReadIntIsValueOf(input: seq<CodeUnit>, index: nat, ds: seq<nat>, i: nat, w: nat, k: int, bias: int)
    requires SpelledAt(input, index, ds) && i <= MAX_INT + 1 && w > 0
    requires ValueOf(ds, k, bias).Some?
    ensures var (v, count) := ValueOf(ds, k, bias).value;
      var r := ReadInt(input, index, i, w, k, bias);
      && (r == Err(Overflow) || r == Ok((i + v * w, index + count)))
      && (i + v * w <= MAX_INT && v * w <= MAX_INT / 35 ==> r.Ok?)
    decreases |ds|
  {
    hide SpelledAt, ReadInt, ValueOf, BasicToDigit;
    var t := Threshold(k, bias);
    SomeDigit(ds, k, bias);
    var digit, rest := ds[0], ds[1..];
    assert [digit] + rest == ds;
    ValueOfCons(digit, rest, k, bias);
    SpelledFirst(input, index, ds);
    ReadIntStep(input, index, digit, i, w, k, bias);
    if digit >= t {
      var (v, count) := ValueOf(rest, k + BASE, bias).value;
      Distribute(digit, BASE - t, v, w);
      if digit <= (MAX_INT - i) / w && w <= MAX_INT / (BASE - t) {
        ReadIntIsValueOf(input, index + 1, rest, i + digit * w, w * (BASE - t), k + BASE, bias);
      }
    }
  }

  lemma Distribute(digit: nat, b: nat, v: nat, w: nat)
    ensures (digit + b * v) * w == digit * w + v * (w * b)
    ensures 0 <= v * (w * b) && 0 <= digit * w
  {
    MulAdds(digit, b * v, w);
    MulGrows(w, 0, b);
    MulGrows(v, 0, w * b);
    MulGrows(digit, 0, w);
    assert b * v * w == v * (w * b);
  }

  lemma WeightFits(digit: nat, w: nat, b: nat)
    requires digit >= 1 && 1 <= b <= 35 && w > MAX_INT / b
    ensures digit * w > MAX_INT / 35
  {
    MulPositive(digit, w);
    QuotientCompares(w, MAX_INT, b);
    MulGrows(w, b, 35);
    QuotientCompares(w, MAX_INT, 35);
  }

  // ---------- the two machines in lock-step ----------

  /** The code points the encoder has handled when its pass for n has reached position j, in input order. */
  function Handled(cps: seq<nat>, j: nat, n: nat): seq<nat>
    requires j <= |cps|
  {
    Below(cps[..j], n + 1) + Below(cps[j..], n)
  }

  lemma {:induction false} BelowConcat(a: seq<nat>, b: seq<nat>, n: nat)
    ensures Below(a + b, n) == Below(a, n) + Below(b, n)
  {
    if a == [] {
      assert a + b == b;
    } else {
      BelowConcat(a[1..], b, n);
      assert (a + b)[0] == a[0] && (a + b)[1..] == a[1..] + b;
      ConsAssoc(a[0], Below(a[1..], n), Below(b, n));
    }
  }

  lemma ConsAssoc(x: nat, l: seq<nat>, r: seq<nat>)
    ensures [x] + (l + r) == ([x] + l) + r
  {
  }

  lemma BelowPrefix(cps: seq<nat>, j: nat, bound: nat)
    requires j < |cps|
    ensures Below(cps[..j + 1], bound) == if cps[j] < bound then Below(cps[..j], bound) + [cps[j]] else Below(cps[..j], bound)
  {
    var head, last := cps[..j], [cps[j]];
    assert cps[..j + 1] == head + last;
    assert last[1..] == [];
    BelowConcat(head, last, bound);
  }

  lemma BelowSuffix(cps: seq<nat>, j: nat, bound: nat)
    requires j < |cps|
    ensures Below(cps[j..], bound)
         == if cps[j] < bound then [cps[j]] + Below(cps[j + 1..], bound) else Below(cps[j + 1..], bound)
  {
    var tail := cps[j..];
    assert tail[0] == cps[j] && tail[1..] == cps[j + 1..];
  }

  /** How one step of the pass changes what has been handled. */
  lemma HandledStep(cps: seq<nat>, j: nat, n: nat)
    requires j < |cps|
    ensures |Below(cps[..j + 1], n + 1)| == |Below(cps[..j], n + 1)| + (if cps[j] <= n then 1 else 0)
    ensures Handled(cps, j + 1, n)
         == if cps[j] == n then Insert(Handled(cps, j, n), |Below(cps[..j], n + 1)|, n) else Handled(cps, j, n)
  {
    hide Below, Insert;
    BelowPrefix(cps, j, n + 1);
    BelowSuffix(cps, j, n);
    MoveAcross(Below(cps[..j], n + 1), cps[j], Below(cps[j + 1..], n));
  }

  lemma MoveAcross(l: seq<nat>, x: nat, r: seq<nat>)
    ensures (l + [x]) + r == l + ([x] + r) == Insert(l + r, |l|, x)
  {
    assert (l + r)[..|l|] == l && (l + r)[|l|..] == r;
  }

  lemma HandledEnds(cps: seq<nat>, n: nat)
    ensures Handled(cps, 0, n) == Below(cps, n) && Handled(cps, |cps|, n) == Below(cps, n + 1)
    ensures Below(cps[..0], n + 1) == []
  {
    assert cps[..0] == [] && cps[0..] == cps && cps[..|cps|] == cps && cps[|cps|..] == [];
  }

  lemma HandledSize(cps: seq<nat>, j: nat, n: nat)
    requires j <= |cps|
    ensures |Below(cps, n)| <= |Handled(cps, j, n)| <= |cps|
  {
    assert cps == cps[..j] + cps[j..];
    BelowConcat(cps[..j], cps[j..], n);
    BelowGrows(cps[..j], n, n + 1);
  }

  /** How far i grows while n advances over some points: out positions for each of them. */
  function Laps(points: nat, out: nat): nat {
    if points == 0 then 0 else Laps(points - 1, out) + out
  }

  lemma {:induction false} LapsIsProduct(points: nat, out: nat)
    ensures Laps(points, out) == points * out
  {
    if points > 0 {
      LapsIsProduct(points - 1, out);
      MulAdds(points - 1, 1, out);
    }
  }

  /** The encoder e, at position j of its pass for n, is where the decoder d will be when it needs e's next integer:
      same bias, the handled points as output, and a delta that leads d from its own <n, i> to the encoder's. */
  ghost predicate InStep(cps: seq<nat>, j: nat, n: nat, basicLength: nat, e: Encoder, d: Decoder) {
    && j <= |cps| && n <= 0x11_0000 && 128 <= d.n <= n && d.i <= |cps|
    && d.bias == e.bias
    && d.output == Handled(cps, j, n) && e.handled == |d.output|
    && d.i + e.delta == Laps(n - d.n, e.handled + 1) + |Below(cps[..j], n + 1)|
    && (d.i == 0 <==> e.handled == basicLength) && basicLength <= |Below(cps, n)|
    // after the first emission of a pass, delta has only grown by the smaller points seen since
    && (e.handled > |Below(cps, n)| ==> e.delta <= |Below(cps[..j], n)|)
  }

  /** Encoder and decoder adapt to the same bias, although the encoder counts the points only once per pass. */
  lemma SameBias(cps: seq<nat>, j: nat, n: nat, basicLength: nat, e: Encoder, d: Decoder)
    requires InStep(cps, j, n, basicLength, e, d) && j < |cps|
    ensures AdaptedBias(e.delta, |Below(cps, n)| + 1, e.handled == basicLength)
         == AdaptedBias(e.delta, |d.output| + 1, d.i == 0)
  {
    hide Below, AdaptedBias, Laps;
    HandledSize(cps, j, n);
    if e.handled > |Below(cps, n)| {
      assert cps == cps[..j] + cps[j..];
      BelowConcat(cps[..j], cps[j..], n);
      AdaptIgnoresCount(e.delta, |Below(cps, n)| + 1, |d.output| + 1);
    }
  }

  /** The decoder lands on the encoder's point, at the position the encoder means. */
  lemma LandsOn(cps: seq<nat>, j: nat, n: nat, basicLength: nat, e: Encoder, d: Decoder)
    requires InStep(cps, j, n, basicLength, e, d)
    ensures var i', out, cnt := d.i + e.delta, |d.output| + 1, |Below(cps[..j], n + 1)|;
      cnt < out && i' / out == n - d.n && i' % out == cnt
  {
    var cnt := |Below(cps[..j], n + 1)|;
    var out := |d.output| + 1;
    LapsIsProduct(n - d.n, out);
    DivModUnique(cnt, n - d.n, out);
  }

  /** Where the decoder gets to on reading the delta the encoder emits for cps[j]. */
  lemma EmitMatchesAdvance(cps: seq<nat>, j: nat, n: nat, basicLength: nat, e: Encoder, d: Decoder) returns (d': Decoder)
    requires InStep(cps, j, n, basicLength, e, d) && j < |cps| && cps[j] == n
    requires d.i + e.delta <= MAX_INT && InRange(d)
    ensures Advance(d, d.i + e.delta) == Ok(d')
    ensures InStep(cps, j + 1, n, basicLength, Emit(e, |Below(cps, n)| + 1, basicLength), d')
  {
    hide Below, Handled, Insert, AdaptedBias, Advance, DigitsOf, Laps;
    var cnt := |Below(cps[..j], n + 1)|;
    var out := |d.output| + 1;
    LandsOn(cps, j, n, basicLength, e, d);
    SameBias(cps, j, n, basicLength, e, d);
    AdvanceIs(d, e.delta, n, cnt);
    d' := Decoder(n, cnt + 1, AdaptedBias(e.delta, out, d.i == 0), Insert(d.output, cnt, n));
    HandledStep(cps, j, n);
    HandledSize(cps, j, n);
    HandledSize(cps, j + 1, n);
    NoLaps(|d'.output| + 1);
    InsertGrows(d.output, cnt, n);
  }

  lemma AdvanceIs(d: Decoder, delta: nat, n: nat, at: nat)
    requires InRange(d) && d.i + delta <= MAX_INT && d.n <= n <= MAX_INT && at <= |d.output|
    requires (d.i + delta) / (|d.output| + 1) == n - d.n && (d.i + delta) % (|d.output| + 1) == at
    ensures Advance(d, d.i + delta) == Ok(Decoder(n, at + 1, AdaptedBias(delta, |d.output| + 1, d.i == 0), Insert(d.output, at, n)))
  {
  }

  lemma NoLaps(out: nat)
    ensures Laps(0, out) == 0
  {
  }

  lemma InsertGrows(s: seq<nat>, k: nat, x: nat)
    requires k <= |s|
    ensures |Insert(s, k, x)| == |s| + 1
  {
  }

  /** b continues a with digits. */
  predicate Extends(a: seq<CodeUnit>, b: seq<CodeUnit>) {
    a <= b && forall k :: |a| <= k < |b| ==> IsLowerDigit(b[k])
  }

  lemma {:induction false} PassExtends(cps: seq<nat>, j: nat, n: nat, countPlusOne: nat, basicLength: nat, e: Encoder)
    requires j <= |cps| && countPlusOne > 0
    requires EncodePass(cps, j, n, countPlusOne, basicLength, e).Ok?
    ensures Extends(e.output, EncodePass(cps, j, n, countPlusOne, basicLength, e).value.output)
    decreases |cps| - j
  {
    if j < |cps| {
      var e' := if cps[j] < n then e.(delta := e.delta + 1)
                else if cps[j] == n then Emit(e, countPlusOne, basicLength) else e;
      PassExtends(cps, j + 1, n, countPlusOne, basicLength, e');
    }
  }

  lemma RoundExtends(cps: seq<nat>, n: nat, m: nat, basicLength: nat, e: Encoder)
    requires n <= m && e.handled == |Below(cps, m)|
    requires EncodeRound(cps, n, m, basicLength, e).Ok?
    ensures Extends(e.output, EncodeRound(cps, n, m, basicLength, e).value.output)
  {
    PassExtends(cps, 0, m, e.handled + 1, basicLength, Skip(e, m - n).value);
  }

  /** Unfolds one round of the main encoding loop. */
  lemma FirstRound(cps: seq<nat>, n: nat, basicLength: nat, e: Encoder) returns (m: nat, e': Encoder)
    requires CodePoints(cps) && e.handled == |Below(cps, n)| < |cps|
    requires EncodeFrom(cps, n, basicLength, e).Ok?
    ensures n <= m < 0x11_0000 && Below(cps, m) == Below(cps, n)
    ensures EncodeRound(cps, n, m, basicLength, e) == Ok(e')
    ensures e'.handled == |Below(cps, m + 1)|
    ensures EncodeFrom(cps, n, basicLength, e) == EncodeFrom(cps, m + 1, basicLength, e')
  {
    m := NextPoint(cps, 0, n, MAX_INT);
    NothingBetween(cps, n);
    e' := EncodeRound(cps, n, m, basicLength, e).value;
  }

  lemma EncodeEnds(cps: seq<nat>, n: nat, basicLength: nat, e: Encoder)
    requires CodePoints(cps) && e.handled == |cps| == |Below(cps, n)|
    ensures EncodeFrom(cps, n, basicLength, e) == Ok(e.output) && Extends(e.output, e.output)
  {
  }

  lemma BelowBounds(cps: seq<nat>, n: nat)
    ensures |Below(cps, n)| <= |cps|
  {
  }

  lemma {:induction false} EncodeExtends(cps: seq<nat>, n: nat, basicLength: nat, e: Encoder)
    requires CodePoints(cps) && e.handled == |Below(cps, n)|
    requires EncodeFrom(cps, n, basicLength, e).Ok?
    ensures Extends(e.output, EncodeFrom(cps, n, basicLength, e).value)
    decreases 0x11_0000 - n
  {
    hide EncodeFrom, EncodeRound, CodePoints, Extends, Below;
    var p := EncodeFrom(cps, n, basicLength, e).value;
    if e.handled == |cps| {
      EncodeEnds(cps, n, basicLength, e);
    } else {
      BelowBounds(cps, n);
      var m, e' := FirstRound(cps, n, basicLength, e);
      RoundExtends(cps, n, m, basicLength, e);
      EncodeExtends(cps, m + 1, basicLength, e');
      ExtendsTrans(e.output, e'.output, p);
    }
  }

  lemma ExtendsTrans(a: seq<CodeUnit>, b: seq<CodeUnit>, c: seq<CodeUnit>)
    requires Extends(a, b) && Extends(b, c)
    ensures Extends(a, c)
  {
  }

  /** The longest input for which every integer is too small for a guard to fire. */
  const SMALL := 55

  lemma SmallIntegers(laps: nat, out: nat, cnt: nat)
    requires laps <= 0x11_0000 - 128 && cnt < out <= SMALL
    ensures Laps(laps, out) + cnt <= MAX_INT / 35
  {
    LapsIsProduct(laps, out);
    MulGrows(laps, out, SMALL);
  }

  /** The decoder reads back the delta just emitted, or a guard fires (never on small inputs). */
  lemma EmitThenRead(input: seq<CodeUnit>, e: Encoder, e1: Encoder, i: nat)
    requires e1.output == e.output + Spelling(DigitsOf(e.delta, BASE, e.bias))
    requires e1.output <= input && i <= MAX_INT + 1
    ensures |e.output| < |e1.output|
    ensures var r := ReadInt(input, |e.output|, i, 1, BASE, e.bias);
      && (r == Err(Overflow) || r == Ok((i + e.delta, |e1.output|)))
      && (i + e.delta <= MAX_INT / 35 ==> r.Ok?)
  {
    var ds := DigitsOf(e.delta, BASE, e.bias);
    forall j | 0 <= j < |ds| ensures BasicToDigit(input[|e.output| + j]) == ds[j] {
      assert input[|e.output| + j] == e1.output[|e.output| + j] == Spelling(ds)[j];
    }
    ValueOfDigits(e.delta, BASE, e.bias, []);
    assert ds + [] == ds;
    ReadIntIsValueOf(input, |e.output|, ds, i, 1, BASE, e.bias);
  }

  lemma SmallDelta(cps: seq<nat>, j: nat, n: nat, basicLength: nat, e: Encoder, d: Decoder)
    requires InStep(cps, j, n, basicLength, e, d) && j < |cps| <= SMALL && cps[j] == n
    ensures d.i + e.delta <= MAX_INT / 35
  {
    var laps, out, cnt := n - d.n, |d.output| + 1, |Below(cps[..j], n + 1)|;
    assert cnt < out <= |cps| by {
      HandledStep(cps, j, n);
      HandledSize(cps, j + 1, n);
      LandsOn(cps, j, n, basicLength, e, d);
    }
    assert d.i + e.delta == Laps(laps, out) + cnt;
    SmallIntegers(laps, out, cnt);
  }

  /** One emission, read and taken in by the decoder. None: the decoder's guards fired. */
  lemma EmissionInStep(input: seq<CodeUnit>, cps: seq<nat>, j: nat, n: nat, basicLength: nat, e: Encoder, d: Decoder)
    returns (d': Option<Decoder>)
    requires InStep(cps, j, n, basicLength, e, d) && InRange(d) && j < |cps| && cps[j] == n
    requires Emit(e, |Below(cps, n)| + 1, basicLength).output <= input
    ensures var e1 := Emit(e, |Below(cps, n)| + 1, basicLength);
      match d'
      case None => |cps| > SMALL && DecodeFrom(input, |e.output|, d) == Err(Overflow)
      case Some(d') => InStep(cps, j + 1, n, basicLength, e1, d') && InRange(d') &&
                       DecodeFrom(input, |e.output|, d) == DecodeFrom(input, |e1.output|, d')
  {
    hide ReadInt, Below, Laps, Handled, Insert;
    var e1 := Emit(e, |Below(cps, n)| + 1, basicLength);
    EmitThenRead(input, e, e1, d.i);
    if |cps| <= SMALL {
      SmallDelta(cps, j, n, basicLength, e, d);
    }
    LandsOn(cps, j, n, basicLength, e, d);
    if ReadInt(input, |e.output|, d.i, 1, BASE, d.bias).Err? {
      d' := None;
    } else {
      var next := EmitMatchesAdvance(cps, j, n, basicLength, e, d);
      d' := Some(next);
    }
  }

  lemma SkipInStep(cps: seq<nat>, j: nat, n: nat, basicLength: nat, e: Encoder, d: Decoder)
    requires InStep(cps, j, n, basicLength, e, d) && j < |cps| && cps[j] != n
    ensures InStep(cps, j + 1, n, basicLength, if cps[j] < n then e.(delta := e.delta + 1) else e, d)
  {
    hide Below, Laps, Handled, Insert;
    HandledStep(cps, j, n);
    BelowPrefix(cps, j, n);
  }

  lemma InStepAt(cps: seq<nat>, j: nat, n: nat, basicLength: nat, e: Encoder, d: Decoder)
    requires InStep(cps, j, n, basicLength, e, d)
    ensures j <= |cps|
  {
  }

  /** A whole pass. */
  lemma {:induction false} PassInStep(input: seq<CodeUnit>, cps: seq<nat>, j: nat, n: nat, basicLength: nat, e: Encoder, d: Decoder)
    returns (d': Option<Decoder>)
    requires InStep(cps, j, n, basicLength, e, d) && InRange(d)
    requires EncodePass(cps, j, n, |Below(cps, n)| + 1, basicLength, e).Ok?
    requires EncodePass(cps, j, n, |Below(cps, n)| + 1, basicLength, e).value.output <= input
    ensures var e' := EncodePass(cps, j, n, |Below(cps, n)| + 1, basicLength, e).value;
      match d'
      case None => |cps| > SMALL && DecodeFrom(input, |e.output|, d) == Err(Overflow)
      case Some(d') => InStep(cps, |cps|, n, basicLength, e', d') && InRange(d') &&
                       DecodeFrom(input, |e.output|, d) == DecodeFrom(input, |e'.output|, d')
    decreases |cps| - j
  {
    hide InStep, InRange, DecodeFrom, Below, Emit;
    InStepAt(cps, j, n, basicLength, e, d);
    var countPlusOne := |Below(cps, n)| + 1;
    if j == |cps| {
      d' := Some(d);
    } else if cps[j] != n {
      SkipInStep(cps, j, n, basicLength, e, d);
      d' := PassInStep(input, cps, j + 1, n, basicLength, if cps[j] < n then e.(delta := e.delta + 1) else e, d);
    } else {
      var e1 := Emit(e, countPlusOne, basicLength);
      PassExtends(cps, j + 1, n, countPlusOne, basicLength, e1);
      d' := EmissionInStep(input, cps, j, n, basicLength, e, d);
      if d'.Some? {
        d' := PassInStep(input, cps, j + 1, n, basicLength, e1, d'.value);
      }
    }
  }

  /** Passing over the unused code points from n to m keeps the machines in step. */
  lemma SkipToNext(cps: seq<nat>, n: nat, m: nat, basicLength: nat, e: Encoder, e1: Encoder, d: Decoder)
    requires InStep(cps, 0, n, basicLength, e, d) && n <= m <= 0x11_0000
    requires Below(cps, m) == Below(cps, n)
    requires e1 == e.(delta := e1.delta) && e1.delta == e.delta + (m - n) * (e.handled + 1)
    ensures InStep(cps, 0, m, basicLength, e1, d)
  {
    hide Below, Handled, Laps;
    HandledEnds(cps, n);
    HandledEnds(cps, m);
    MulAdds(n - d.n, m - n, e.handled + 1);
    LapsIsProduct(n - d.n, e.handled + 1);
    LapsIsProduct(m - d.n, e.handled + 1);
  }

  /** The end of one pass is the start of the next, a point further. */
  lemma NextRound(cps: seq<nat>, n: nat, basicLength: nat, e: Encoder, d: Decoder)
    requires InStep(cps, |cps|, n, basicLength, e, d) && n < 0x11_0000
    ensures InStep(cps, 0, n + 1, basicLength, e.(delta := e.delta + 1), d)
  {
    HandledEnds(cps, n);
    HandledEnds(cps, n + 1);
    BelowGrows(cps, n, n + 1);
    assert cps[..|cps|] == cps;
  }

  /** One round of the encoder, followed by the decoder. None: the decoder's guards fired. */
  lemma RoundInStep(input: seq<CodeUnit>, cps: seq<nat>, n: nat, m: nat, basicLength: nat, e: Encoder, d: Decoder)
    returns (d': Option<Decoder>)
    requires InStep(cps, 0, n, basicLength, e, d) && InRange(d)
    requires n <= m < 0x11_0000 && Below(cps, m) == Below(cps, n) && e.handled == |Below(cps, m)|
    requires EncodeRound(cps, n, m, basicLength, e).Ok?
    requires EncodeRound(cps, n, m, basicLength, e).value.output <= input
    ensures var e' := EncodeRound(cps, n, m, basicLength, e).value;
      match d'
      case None => |cps| > SMALL && DecodeFrom(input, |e.output|, d) == Err(Overflow)
      case Some(d') => InStep(cps, 0, m + 1, basicLength, e', d') && InRange(d') &&
                       DecodeFrom(input, |e.output|, d) == DecodeFrom(input, |e'.output|, d')
  {
    hide InStep, InRange, DecodeFrom, Below, EncodePass;
    var e1 := Skip(e, m - n).value;
    SkipToNext(cps, n, m, basicLength, e, e1, d);
    d' := PassInStep(input, cps, 0, m, basicLength, e1, d);
    if d'.Some? {
      NextRound(cps, m, basicLength, EncodePass(cps, 0, m, e.handled + 1, basicLength, e1).value, d'.value);
    }
  }

  lemma {:induction false} BelowAll(s: seq<nat>, n: nat)
    requires |Below(s, n)| == |s|
    ensures Below(s, n) == s
  {
    if s != [] {
      BelowAll(s[1..], n);
    }
  }

  /** When everything is handled, the decoder's output is the input of the encoder. */
  lemma LastInStep(cps: seq<nat>, n: nat, basicLength: nat, e: Encoder, d: Decoder)
    requires InStep(cps, 0, n, basicLength, e, d) && InRange(d) && e.handled == |cps|
    ensures forall input: seq<CodeUnit> :: DecodeFrom(input, |input|, d) == Ok(cps)
  {
    HandledEnds(cps, n);
    BelowAll(cps, n);
  }

  /** One round of the encoder's output and of the decoder's input. */
  lemma NextInStep(input: seq<CodeUnit>, cps: seq<nat>, n: nat, basicLength: nat, e: Encoder, d: Decoder)
    returns (m: nat, e': Encoder, d': Option<Decoder>)
    requires CodePoints(cps) && InStep(cps, 0, n, basicLength, e, d) && InRange(d)
    requires e.handled == |Below(cps, n)| < |cps| && EncodeFrom(cps, n, basicLength, e) == Ok(input)
    ensures n < m <= 0x11_0000 && e'.handled == |Below(cps, m)| && EncodeFrom(cps, m, basicLength, e') == Ok(input)
    ensures d'.None? ==> |cps| > SMALL && DecodeFrom(input, |e.output|, d) == Err(Overflow)
    ensures d'.Some? ==> InStep(cps, 0, m, basicLength, e', d'.value) && InRange(d'.value)
    ensures d'.Some? ==> DecodeFrom(input, |e.output|, d) == DecodeFrom(input, |e'.output|, d'.value)
  {
    hide InStep, InRange, EncodeFrom, EncodeRound, DecodeFrom, Below, CodePoints;
    m, e' := FirstRound(cps, n, basicLength, e);
    EncodeExtends(cps, m + 1, basicLength, e');
    d' := RoundInStep(input, cps, n, m, basicLength, e, d);
    m := m + 1;
  }

  /** From two states in step, the decoder reproduces the code points from what the encoder writes. */
  lemma {:induction false} EncodeInStep(input: seq<CodeUnit>, cps: seq<nat>, n: nat, basicLength: nat, e: Encoder, d: Decoder)
    requires CodePoints(cps) && InStep(cps, 0, n, basicLength, e, d) && InRange(d)
    requires e.handled == |Below(cps, n)| && EncodeFrom(cps, n, basicLength, e) == Ok(input)
    ensures var r := DecodeFrom(input, |e.output|, d);
      r == Ok(cps) || (|cps| > SMALL && r == Err(Overflow))
    decreases 0x11_0000 - n
  {
    if e.handled == |cps| {
      LastInStep(cps, n, basicLength, e, d);
    } else {
      var m, e', d' := NextInStep(input, cps, n, basicLength, e, d);
      if d'.Some? {
        EncodeInStep(input, cps, m, basicLength, e', d'.value);
      }
    }
  }

  // ---------- the codec as a whole ----------

  lemma {:induction false} BasicsAreBelow(cps: seq<nat>)
    ensures forall k :: 0 <= k < |Basics(cps)| ==> Basics(cps)[k] as nat == Below(cps, INITIAL_N)[k] < INITIAL_N
  {
    if cps != [] {
      BasicsAreBelow(cps[1..]);
    }
  }

  /** The decoder finds the basic part of an encoding where the encoder put it. */
  lemma BasicPart(cps: seq<nat>, p: seq<CodeUnit>)
    requires Extends(EncoderStart(cps).output, p)
    ensures BasicLength(p) == |Basics(cps)|
    ensures !exists j :: 0 <= j < BasicLength(p) && p[j] >= 0x80
    ensures AsPoints(p[..BasicLength(p)]) == Below(cps, INITIAL_N)
  {
    var basics := Basics(cps);
    if basics != [] {
      assert p[|basics|] == (basics + [DELIMITER])[|basics|] == DELIMITER;
    }
    BasicsAreBelow(cps);
    assert forall j :: 0 <= j < |basics| ==> p[j] == basics[j];
  }

  lemma StartInStep(cps: seq<nat>, e: Encoder, d: Decoder)
    requires e == EncoderStart(cps) && d == Decoder(INITIAL_N, 0, INITIAL_BIAS, Below(cps, INITIAL_N))
    ensures InStep(cps, 0, INITIAL_N, e.handled, e, d)
  {
    HandledEnds(cps, INITIAL_N);
  }

  /** On code points: decoding what was encoded gives the input back, unless a decoder guard fires,
      and none does for up to SMALL code points. */
  lemma DecodedEncodedPoints(cps: seq<nat>)
    requires CodePoints(cps) && EncodedPoints(cps).Ok?
    ensures var r := DecodedPoints(EncodedPoints(cps).value);
      r == Ok(cps) || (|cps| > SMALL && r == Err(Overflow))
  {
    hide InStep, EncodeFrom, DecodeFrom;
    var p, e := EncodedPoints(cps).value, EncoderStart(cps);
    var d := Decoder(INITIAL_N, 0, INITIAL_BIAS, Below(cps, INITIAL_N));
    EncodeExtends(cps, INITIAL_N, e.handled, e);
    BasicPart(cps, p);
    assert DecodedPoints(p) == DecodeFrom(p, |e.output|, d);
    StartInStep(cps, e, d);
    EncodeInStep(p, cps, INITIAL_N, e.handled, e, d);
  }

  /** Within one pass delta grows by at most one per position. */
  lemma {:induction false} PassFits(cps: seq<nat>, j: nat, n: nat, countPlusOne: nat, basicLength: nat, e: Encoder, bound: nat)
    requires j <= |cps| && countPlusOne > 0
    requires e.delta <= bound + j && bound + |cps| <= MAX_INT
    ensures var r := EncodePass(cps, j, n, countPlusOne, basicLength, e);
      r.Ok? && r.value.delta <= bound + |cps|
    decreases |cps| - j
  {
    if j < |cps| {
      var e' := if cps[j] < n then e.(delta := e.delta + 1)
                else if cps[j] == n then Emit(e, countPlusOne, basicLength) else e;
      PassFits(cps, j + 1, n, countPlusOne, basicLength, e', bound);
    }
  }

  lemma RoundFits(cps: seq<nat>, n: nat, m: nat, basicLength: nat, e: Encoder)
    requires |cps| <= SMALL && 128 <= n <= m < 0x11_0000 && e.handled == |Below(cps, m)|
    requires e.delta <= (n - 128) * (|cps| + 1)
    ensures var r := EncodeRound(cps, n, m, basicLength, e);
      r.Ok? && r.value.delta <= (m + 1 - 128) * (|cps| + 1)
  {
    var c := |cps| + 1;
    SkipFits(n, m, e.handled + 1, c, e.delta);
    MulAdds(m - 128, 1, c);
    QuotientCompares(m - n, MAX_INT - e.delta, e.handled + 1);
    PassFits(cps, 0, m, e.handled + 1, basicLength, Skip(e, m - n).value, (m - 128) * c);
  }

  lemma SkipFits(n: nat, m: nat, count: nat, c: nat, delta: nat)
    requires 128 <= n <= m < 0x11_0000 && count <= c <= SMALL + 1
    requires delta <= (n - 128) * c
    ensures delta + (m - n) * count <= (m - 128) * c
    ensures (m - 128) * c + c <= MAX_INT
  {
    MulGrows(m - n, count, c);
    MulAdds(n - 128, m - n, c);
    MulGrows(m - 128, c, SMALL + 1);
  }

  /** One round goes well, and the loop goes on behind it. */
  lemma RoundGoesOn(cps: seq<nat>, n: nat, basicLength: nat, e: Encoder) returns (m: nat, e': Encoder)
    requires CodePoints(cps) && |cps| <= SMALL && e.handled == |Below(cps, n)| < |cps|
    requires 128 <= n && e.delta <= (n - 128) * (|cps| + 1)
    ensures n <= m < 0x11_0000 && e'.handled == |Below(cps, m + 1)| && e'.delta <= (m + 1 - 128) * (|cps| + 1)
    ensures EncodeFrom(cps, n, basicLength, e) == EncodeFrom(cps, m + 1, basicLength, e')
  {
    hide Below, EncodeRound, NextPoint;
    m := NextPoint(cps, 0, n, MAX_INT);
    NothingBetween(cps, n);
    RoundFits(cps, n, m, basicLength, e);
    e' := EncodeRound(cps, n, m, basicLength, e).value;
  }

  lemma AllHandled(cps: seq<nat>, n: nat, basicLength: nat, e: Encoder)
    requires CodePoints(cps) && e.handled == |Below(cps, n)|
    ensures e.handled <= |cps|
    ensures e.handled == |cps| ==> EncodeFrom(cps, n, basicLength, e).Ok?
  {
  }

  lemma {:induction false} EncodeFits(cps: seq<nat>, n: nat, basicLength: nat, e: Encoder)
    requires CodePoints(cps) && |cps| <= SMALL && e.handled == |Below(cps, n)|
    requires 128 <= n && e.delta <= (n - 128) * (|cps| + 1)
    ensures EncodeFrom(cps, n, basicLength, e).Ok?
    decreases 0x11_0000 - n
  {
    hide EncodeFrom, Below;
    AllHandled(cps, n, basicLength, e);
    if e.handled != |cps| {
      var m, e' := RoundGoesOn(cps, n, basicLength, e);
      EncodeFits(cps, m + 1, basicLength, e');
    }
  }

  /** On strings: decoding what was encoded gives the string back exactly when utf16encode can write all its code points;
      a decoder overflow is possible only beyond SMALL code points. */
  lemma DecodedEncoded(s: seq<CodeUnit>)
    requires Encoded(s).Ok?
    ensures var cps, r := PointsOf(s).value, Decoded(Encoded(s).value);
      || r == (if Representable(cps) then Ok(s) else Err(BadUtf16Output))
      || (|cps| > SMALL && r == Err(Overflow))
  {
    DecodedEncodedPoints(PointsOf(s).value);
    Utf16RoundTrip(s);
  }

  /** Every well-formed string of up to SMALL code points is encoded without overflow, and decodes back to itself
      if and only if no code point has the bits of a surrogate in its low half. */
  lemma SmallRoundTrip(s: seq<CodeUnit>)
    requires PointsOf(s).Ok? && |PointsOf(s).value| <= SMALL
    ensures Encoded(s).Ok?
    ensures Decoded(Encoded(s).value) == Ok(s) <==> Representable(PointsOf(s).value)
  {
    var cps := PointsOf(s).value;
    EncodeFits(cps, INITIAL_N, |Basics(cps)|, EncoderStart(cps));
    DecodedEncoded(s);
  }

  /** U+1D800 is a scalar value, and its encoding does not decode. */
  lemma RoundTripFails()
    ensures var s: seq<CodeUnit> := [0xD836, 0xDC00];
      PointsOf(s) == Ok([0x1_D800]) && Encoded(s).Ok? && Decoded(Encoded(s).value) == Err(BadUtf16Output)
  {
    var s: seq<CodeUnit> := [0xD836, 0xDC00];
    assert PairValue(s[0], s[1]) == 0x1_D800 && MasksToSurrogate(0x1_D800);
    assert s[2..] == [] && PointsOf([]) == Ok([]) && [0x1_D800] + [] == [0x1_D800];
    assert PointsOf(s) == Ok([0x1_D800]);
    SmallRoundTrip(s);
    DecodedEncoded(s);
    assert !Representable([0x1_D800]) by { assert MasksToSurrogate([0x1_D800][0]); }
  }
}
