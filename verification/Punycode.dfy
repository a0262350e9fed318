/** The Punycode codec of punycode.js: the loops of encode and decode as methods,
    each proved equal to a recursive specification over the same state. */
module Punycode {
  import opened Arithmetic
  import opened Results
  import opened Bootstring

  /** A JavaScript string is a sequence of 16-bit code units. */
  type CodeUnit = x: nat | x < 0x1_0000

  const DELIMITER: CodeUnit := 45

  /** NegativeDigit stands for inputs on which the source computes with a negative digit. */
  datatype Error = Overflow | BadUtf16Input | BadUtf16Output | NotBasic | InvalidInput | NegativeDigit

  function Prepend<T>(prefix: seq<T>, r: Result<seq<T>, Error>): Result<seq<T>, Error> {
    match r
    case Ok(rest) => Ok(prefix + rest)
    case Err(e) => Err(e)
  }

  // ---------- UTF-16 ----------

  /** (value & 0xF800) == 0xD800: bits 11 to 15 only, whatever the higher bits are. */
  predicate MasksToSurrogate(value: nat) {
    value / 0x800 % 0x20 == 0x1B
  }

  predicate IsTrail(unit: CodeUnit) {
    0xDC00 <= unit < 0xE000
  }

  function PairValue(lead: CodeUnit, trail: CodeUnit): nat {
    lead % 0x400 * 0x400 + trail % 0x400 + 0x1_0000
  }

  /** Unicode scalar values: code points that are no surrogates. */
  predicate CodePoints(cps: seq<nat>) {
    forall k :: 0 <= k < |cps| ==> cps[k] <= 0x10_FFFF && !(0xD800 <= cps[k] < 0xE000)
  }

  lemma PairIsPoint(lead: CodeUnit, trail: CodeUnit)
    ensures 0x1_0000 <= PairValue(lead, trail) <= 0x10_FFFF
  {
  }

  lemma UnitIsPoint(unit: CodeUnit)
    ensures MasksToSurrogate(unit) <==> 0xD800 <= unit < 0xE000
  {
  }

  lemma PointsCons(c: nat, r: Result<seq<nat>, Error>)
    requires c <= 0x10_FFFF && !(0xD800 <= c < 0xE000) && (r.Ok? ==> CodePoints(r.value))
    ensures Prepend([c], r).Ok? ==> CodePoints(Prepend([c], r).value)
  {
  }

  /** The code points of a well-formed UTF-16 string. */
  function PointsOf(s: seq<CodeUnit>): (r: Result<seq<nat>, Error>)
    ensures r.Ok? ==> CodePoints(r.value)
  {
    hide MasksToSurrogate, PairValue, Prepend;
    if s == [] then Ok([])
    else if MasksToSurrogate(s[0]) then
      if |s| == 1 || s[0] >= 0xDC00 || !IsTrail(s[1]) then Err(BadUtf16Input)
      else
        var rest := PointsOf(s[2..]);
        PairIsPoint(s[0], s[1]);
        PointsCons(PairValue(s[0], s[1]), rest);
        Prepend([PairValue(s[0], s[1])], rest)
    else
      var rest := PointsOf(s[1..]);
      UnitIsPoint(s[0]);
      PointsCons(s[0], rest);
      Prepend([s[0] as nat], rest)
  }

  lemma PrependTwice<T>(a: seq<T>, b: seq<T>, r: Result<seq<T>, Error>)
    ensures Prepend(a, Prepend(b, r)) == Prepend(a + b, r)
    ensures Prepend([], r) == r
  {
    match r
    case Ok(rest) => assert a + (b + rest) == (a + b) + rest && [] + rest == rest;
    case Err(_) =>
  }

  method Utf16Decode(s: seq<CodeUnit>) returns (r: Result<seq<nat>, Error>)
    ensures r == PointsOf(s)
  {
    var output: seq<nat> := [];
    var counter := 0;
    assert s[0..] == s;
    PrependTwice([], [], PointsOf(s));
    while counter < |s|
      invariant 0 <= counter <= |s|
      invariant PointsOf(s) == Prepend(output, PointsOf(s[counter..]))
    {
      ghost var rest := s[counter..];
      var value: nat := s[counter];
      counter := counter + 1;
      if MasksToSurrogate(value) {
        if counter == |s| {
          return Err(BadUtf16Input);
        }
        var extra := s[counter];
        counter := counter + 1;
        if value >= 0xDC00 || !IsTrail(extra) {
          return Err(BadUtf16Input);
        }
        value := PairValue(value, extra);
        assert rest[2..] == s[counter..];
      } else {
        assert rest[1..] == s[counter..];
      }
      PrependTwice(output, [value], PointsOf(s[counter..]));
      output := output + [value];
    }
    assert output + [] == output;
    return Ok(output);
  }

  /** The code units of one code point, or the error for a value that masks to a surrogate. */
  function UnitsOf(value: nat): Result<seq<CodeUnit>, Error> {
    if MasksToSurrogate(value) then Err(BadUtf16Output)
    else if value > 0xFFFF then
      var v := value - 0x1_0000;
      Ok([0xD800 + v / 0x400 % 0x400, 0xDC00 + v % 0x400])
    else Ok([value])
  }

  function StringOf(cps: seq<nat>): Result<seq<CodeUnit>, Error> {
    if cps == [] then Ok([])
    else
      var units :- UnitsOf(cps[0]);
      Prepend(units, StringOf(cps[1..]))
  }

  /** The source maps from the last element to the first, then joins. */
  method Utf16Encode(cps: seq<nat>) returns (r: Result<seq<CodeUnit>, Error>)
    ensures r == StringOf(cps)
  {
    var length := |cps|;
    var output: seq<CodeUnit> := [];
    while length > 0
      invariant 0 <= length <= |cps|
      invariant StringOf(cps[length..]) == Ok(output)
    {
      length := length - 1;
      assert cps[length..][0] == cps[length] && cps[length..][1..] == cps[length + 1..];
      match UnitsOf(cps[length]) {
        case Err(e) =>
          StringOfBadElement(cps, length);
          return Err(e);
        case Ok(units) =>
          output := units + output;
      }
    }
    assert cps[0..] == cps;
    return Ok(output);
  }

  lemma {:induction false} StringOfBadElement(cps: seq<nat>, k: nat)
    requires k < |cps| && UnitsOf(cps[k]).Err?
    ensures StringOf(cps) == Err(BadUtf16Output)
  {
    if k > 0 {
      StringOfBadElement(cps[1..], k - 1);
    }
  }

  // ---------- digits ----------

  function BasicToDigit(codePoint: nat): int {
    if codePoint - 48 < 10 then codePoint - 22
    else if codePoint - 65 < 26 then codePoint - 65
    else if codePoint - 97 < 26 then codePoint - 97
    else BASE
  }

  /** A lower-case letter or a decimal digit. */
  predicate IsLowerDigit(c: CodeUnit) {
    'a' as int <= c <= 'z' as int || '0' as int <= c <= '9' as int
  }

  /** With flag 0, the only flag the codec passes. */
  function DigitToBasic(digit: nat): (c: CodeUnit)
    requires digit < BASE
    ensures BasicToDigit(c) == digit && IsLowerDigit(c)
  {
    digit + 22 + (if digit < 26 then 75 else 0)
  }

  function Spelling(ds: seq<nat>): (s: seq<CodeUnit>)
    requires AllDigits(ds)
    ensures |s| == |ds|
    ensures forall k :: 0 <= k < |s| ==> BasicToDigit(s[k]) == ds[k] && IsLowerDigit(s[k])
  {
    if ds == [] then [] else [DigitToBasic(ds[0])] + Spelling(ds[1..])
  }

  // ---------- decoding ----------

  /** Reads one variable-length integer at index, adding it to i with weight w under the overflow guards. */
  function ReadInt(input: seq<CodeUnit>, index: nat, i: nat, w: nat, k: int, bias: int): (r: Result<(nat, nat), Error>)
    requires i <= MAX_INT + 1 && w > 0
    ensures r.Ok? ==> i <= r.value.0 <= MAX_INT && index < r.value.1 <= |input|
    decreases |input| - index
  {
    if index >= |input| then Err(InvalidInput)
    else
      var digit := BasicToDigit(input[index]);
      if digit < 0 then Err(NegativeDigit)
      else if digit >= BASE || digit > (MAX_INT - i) / w then Err(Overflow)
      else
        QuotientCompares(digit, MAX_INT - i, w);
        MulGrows(digit, 0, w);
        var i' := i + digit * w;
        var t := Threshold(k, bias);
        MulPositive(w, BASE - t);
        if digit < t then Ok((i', index + 1))
        else if w > MAX_INT / (BASE - t) then Err(Overflow)
        else ReadInt(input, index + 1, i', w * (BASE - t), k + BASE, bias)
  }

  function Insert<T>(s: seq<T>, k: nat, x: T): seq<T>
    requires k <= |s|
  {
    s[..k] + [x] + s[k..]
  }

  /** The decoder's state between two integers: the point n and position i reached, the bias, the output so far. */
  datatype Decoder = Decoder(n: nat, i: nat, bias: int, output: seq<nat>)

  predicate InRange(s: Decoder) {
    s.i <= MAX_INT + 1 && s.n <= MAX_INT
  }

  /** Takes in one integer: i has grown to i', n advances once for every lap i' made round the output. */
  function Advance(s: Decoder, i': nat): (r: Result<Decoder, Error>)
    requires InRange(s) && s.i <= i' <= MAX_INT
    ensures r.Ok? ==> InRange(r.value)
  {
    var out := |s.output| + 1;
    LapBounds(i', out);
    if i' / out > MAX_INT - s.n then Err(Overflow)
    else
      var n := s.n + i' / out;
      Ok(Decoder(n, i' % out + 1, AdaptedBias(i' - s.i, out, s.i == 0), Insert(s.output, i' % out, n)))
  }

  lemma LapBounds(i: nat, out: nat)
    requires out > 0
    ensures 0 <= i / out && 0 <= i % out < out && i % out <= i
  {
    QuotientBounds(i, out);
    DivMod(i, out);
    if i / out > 0 {
      MulPositive(out, i / out);
    }
  }

  /** The main decoding loop from a given state. */
  function DecodeFrom(input: seq<CodeUnit>, index: nat, s: Decoder): Result<seq<nat>, Error>
    requires InRange(s)
    decreases |input| - index
  {
    if index >= |input| then Ok(s.output)
    else
      var (i', index') :- ReadInt(input, index, s.i, 1, BASE, s.bias);
      var s' :- Advance(s, i');
      DecodeFrom(input, index', s')
  }

  function LastDelimiter(s: seq<CodeUnit>): (k: int)
    ensures -1 <= k < |s|
    ensures k >= 0 ==> s[k] == DELIMITER
    ensures forall j :: k < j < |s| ==> s[j] != DELIMITER
  {
    if s == [] then -1
    else if s[|s| - 1] == DELIMITER then |s| - 1
    else LastDelimiter(s[..|s| - 1])
  }

  function BasicLength(input: seq<CodeUnit>): (basic: nat)
    ensures basic <= |input|
  {
    if LastDelimiter(input) < 0 then 0 else LastDelimiter(input)
  }

  function AsPoints(units: seq<CodeUnit>): (cps: seq<nat>)
    ensures |cps| == |units| && forall j :: 0 <= j < |cps| ==> cps[j] == units[j]
  {
    seq(|units|, j requires 0 <= j < |units| => units[j] as nat)
  }

  function DecodedPoints(input: seq<CodeUnit>): Result<seq<nat>, Error> {
    var basic := BasicLength(input);
    if exists j :: 0 <= j < basic && input[j] >= 0x80 then Err(NotBasic)
    else
      DecodeFrom(input, if basic > 0 then basic + 1 else 0,
                 Decoder(INITIAL_N, 0, INITIAL_BIAS, AsPoints(input[..basic])))
  }

  function Decoded(input: seq<CodeUnit>): Result<seq<CodeUnit>, Error> {
    var cps :- DecodedPoints(input);
    StringOf(cps)
  }

  /** The inner loop of the main decoding loop. */
  method ReadInteger(input: seq<CodeUnit>, index0: nat, oldi: nat, bias: int) returns (r: Result<(nat, nat), Error>)
    requires oldi <= MAX_INT + 1
    ensures r == ReadInt(input, index0, oldi, 1, BASE, bias)
  {
    var index, i, w, k := index0, oldi, 1, BASE;
    while true
      invariant oldi <= i <= MAX_INT + 1 && w > 0
      invariant ReadInt(input, index0, oldi, 1, BASE, bias) == ReadInt(input, index, i, w, k, bias)
      decreases |input| - index
    {
      if index >= |input| {
        return Err(InvalidInput);
      }
      var digit := BasicToDigit(input[index]);
      index := index + 1;
      if digit < 0 {
        return Err(NegativeDigit);
      }
      if digit >= BASE || digit > (MAX_INT - i) / w {
        return Err(Overflow);
      }
      QuotientCompares(digit, MAX_INT - i, w);
      MulGrows(digit, 0, w);
      i := i + digit * w;
      var t := Threshold(k, bias);
      if digit < t {
        return Ok((i, index));
      }
      var baseMinusT := BASE - t;
      if w > MAX_INT / baseMinusT {
        return Err(Overflow);
      }
      MulPositive(w, baseMinusT);
      w := w * baseMinusT;
      k := k + BASE;
    }
  }

  /** Copies the basic code points before the last delimiter. */
  method ReadBasics(input: seq<CodeUnit>, basic: nat) returns (r: Result<seq<nat>, Error>)
    requires basic <= |input|
    ensures match r
            case Ok(output) => output == AsPoints(input[..basic]) && forall m :: 0 <= m < basic ==> input[m] < 0x80
            case Err(e) => e == NotBasic && exists m :: 0 <= m < basic && input[m] >= 0x80
  {
    var output: seq<nat> := [];
    for j := 0 to basic
      invariant output == AsPoints(input[..j])
      invariant forall m :: 0 <= m < j ==> input[m] < 0x80
    {
      if input[j] >= 0x80 {
        return Err(NotBasic);
      }
      output := output + [input[j]];
    }
    return Ok(output);
  }

  /** The main decoding loop. */
  method ReadPoints(input: seq<CodeUnit>, index0: nat, output0: seq<nat>) returns (r: Result<seq<nat>, Error>)
    ensures r == DecodeFrom(input, index0, Decoder(INITIAL_N, 0, INITIAL_BIAS, output0))
  {
    hide ReadInt, AdaptedBias;
    var output, i: nat, n: nat, bias, index := output0, 0, INITIAL_N, INITIAL_BIAS, index0;
    while index < |input|
      invariant InRange(Decoder(n, i, bias, output))
      invariant DecodeFrom(input, index0, Decoder(INITIAL_N, 0, INITIAL_BIAS, output0))
             == DecodeFrom(input, index, Decoder(n, i, bias, output))
      decreases |input| - index
    {
      var oldi := i;
      ghost var s := Decoder(n, i, bias, output);
      var integer := ReadInteger(input, index, i, bias);
      if integer.Err? {
        return Err(integer.error);
      }
      i, index := integer.value.0, integer.value.1;
      var out := |output| + 1;
      LapBounds(i, out);
      bias := Adapt(i - oldi, out, oldi == 0);
      if i / out > MAX_INT - n {
        assert Advance(s, i).Err?;
        return Err(Overflow);
      }
      ghost var i' := i;
      n := n + i / out;
      i := i % out;
      output := Insert(output, i, n);
      i := i + 1;
      assert Advance(s, i') == Ok(Decoder(n, i, bias, output));
    }
    return Ok(output);
  }

  method Decode(input: seq<CodeUnit>) returns (r: Result<seq<CodeUnit>, Error>)
    ensures r == Decoded(input)
  {
    hide DecodeFrom, LastDelimiter, AsPoints, StringOf;
    var basic := BasicLength(input);
    var start := ReadBasics(input, basic);
    if start.Err? {
      return Err(start.error);
    }
    var output := ReadPoints(input, if basic > 0 then basic + 1 else 0, start.value);
    if output.Err? {
      return Err(output.error);
    }
    r := Utf16Encode(output.value);
  }

  // ---------- encoding ----------

  /** The elements of s below a bound, in order. */
  function Below(s: seq<nat>, bound: nat): (r: seq<nat>)
    ensures |r| <= |s|
  {
    if s == [] then []
    else if s[0] < bound then [s[0]] + Below(s[1..], bound)
    else Below(s[1..], bound)
  }

  /** The smallest element of cps[j..] that is at least n and below m; m if there is none. */
  function NextPoint(cps: seq<nat>, j: nat, n: nat, m: nat): (r: nat)
    requires j <= |cps|
    ensures r <= m && (r == m || (n <= r && r in cps[j..]))
    ensures forall k :: j <= k < |cps| && cps[k] >= n ==> r <= cps[k]
    decreases |cps| - j
  {
    if j == |cps| then m
    else
      assert cps[j..] == [cps[j]] + cps[j + 1..];
      NextPoint(cps, j + 1, n, if n <= cps[j] < m then cps[j] else m)
  }

  /** The variables of the main encoding loop. */
  datatype Encoder = Encoder(delta: nat, bias: int, handled: nat, output: seq<CodeUnit>)

  /** One inner pass over the input from position j, for the code point n. */
  function EncodePass(cps: seq<nat>, j: nat, n: nat, countPlusOne: nat, basicLength: nat, s: Encoder)
    : (r: Result<Encoder, Error>)
    requires countPlusOne > 0 && j <= |cps|
    ensures r.Ok? ==> r.value.handled == s.handled + |Below(cps[j..], n + 1)| - |Below(cps[j..], n)|
    decreases |cps| - j
  {
    if j == |cps| then Ok(s)
    else
      assert cps[j..][1..] == cps[j + 1..];
      if cps[j] < n then
        if s.delta + 1 > MAX_INT then Err(Overflow)
        else EncodePass(cps, j + 1, n, countPlusOne, basicLength, s.(delta := s.delta + 1))
      else if cps[j] == n then
        EncodePass(cps, j + 1, n, countPlusOne, basicLength, Emit(s, countPlusOne, basicLength))
      else EncodePass(cps, j + 1, n, countPlusOne, basicLength, s)
  }

  /** Writes delta as a variable-length integer and adapts the bias with the count cached for the pass. */
  function Emit(s: Encoder, countPlusOne: nat, basicLength: nat): Encoder
    requires countPlusOne > 0
  {
    Encoder(0, AdaptedBias(s.delta, countPlusOne, s.handled == basicLength), s.handled + 1,
            s.output + Spelling(DigitsOf(s.delta, BASE, s.bias)))
  }

  /** One code point of a pass. */
  lemma EncodePassNext(cps: seq<nat>, j: nat, n: nat, countPlusOne: nat, basicLength: nat, s: Encoder)
    requires countPlusOne > 0 && j < |cps|
    ensures EncodePass(cps, j, n, countPlusOne, basicLength, s) ==
            if cps[j] < n && s.delta + 1 > MAX_INT then Err(Overflow)
            else EncodePass(cps, j + 1, n, countPlusOne, basicLength,
                            if cps[j] < n then s.(delta := s.delta + 1) else if cps[j] == n then Emit(s, countPlusOne, basicLength) else s)
  {
    hide Emit, Below;
  }

  lemma EncodePassEnds(cps: seq<nat>, n: nat, countPlusOne: nat, basicLength: nat, s: Encoder)
    requires countPlusOne > 0
    ensures EncodePass(cps, |cps|, n, countPlusOne, basicLength, s) == Ok(s)
  {
  }

  lemma BelowGrows(s: seq<nat>, a: nat, b: nat)
    requires a <= b
    ensures |Below(s, a)| <= |Below(s, b)|
  {
  }

  lemma {:induction false} SomeAbove(s: seq<nat>, a: nat) returns (k: nat)
    requires |Below(s, a)| < |s|
    ensures k < |s| && s[k] >= a
  {
    if s[0] >= a {
      k := 0;
    } else {
      k := SomeAbove(s[1..], a);
      k := k + 1;
    }
  }

  /** The main encoding loop. */
  function EncodeFrom(cps: seq<nat>, n: nat, basicLength: nat, s: Encoder): Result<seq<CodeUnit>, Error>
    requires CodePoints(cps) && s.handled == |Below(cps, n)|
    decreases 0x11_0000 - n
  {
    hide Below, EncodeRound;
    if s.handled == |cps| then Ok(s.output)
    else
      var m := NextPoint(cps, 0, n, MAX_INT);
      NothingBetween(cps, n);
      var s' :- EncodeRound(cps, n, m, basicLength, s);
      EncodeFrom(cps, m + 1, basicLength, s')
  }

  /** One round of the main encoding loop, for the code point m. */
  function EncodeRound(cps: seq<nat>, n: nat, m: nat, basicLength: nat, s: Encoder): (r: Result<Encoder, Error>)
    requires n <= m && s.handled == |Below(cps, m)|
    ensures r.Ok? ==> r.value.handled == |Below(cps, m + 1)|
  {
    assert cps[0..] == cps;
    var s' :- Skip(s, m - n);
    var s'' :- EncodePass(cps, 0, m, s.handled + 1, basicLength, s');
    Ok(s''.(delta := s''.delta + 1))
  }

  /** Grows delta by one lap of the decoder's output for each of the code points passed over. */
  function Skip(s: Encoder, points: nat): (r: Result<Encoder, Error>)
    ensures r.Ok? ==> r.value.handled == s.handled
  {
    if points > (MAX_INT - s.delta) / (s.handled + 1) then Err(Overflow)
    else Ok(s.(delta := s.delta + points * (s.handled + 1)))
  }

  /** When something is left to encode, the pass is for the least such code point, and nothing lies below it. */
  lemma NothingBetween(cps: seq<nat>, n: nat)
    requires CodePoints(cps) && |Below(cps, n)| < |cps|
    ensures var m := NextPoint(cps, 0, n, MAX_INT);
      n <= m <= 0x10_FFFF && m in cps && Below(cps, m) == Below(cps, n)
  {
    var m := NextPoint(cps, 0, n, MAX_INT);
    assert cps[0..] == cps;
    var k := SomeAbove(cps, n);
    assert cps[k] in cps;
    SameBelow(cps, n, m);
  }

  lemma SameBelow(s: seq<nat>, n: nat, m: nat)
    requires n <= m && forall k :: 0 <= k < |s| && s[k] >= n ==> m <= s[k]
    ensures Below(s, m) == Below(s, n)
  {
    if s != [] {
      assert s[0] < m <==> s[0] < n;
      SameBelow(s[1..], n, m);
    }
  }

  /** The basic code points of the input, as characters. */
  function Basics(cps: seq<nat>): (s: seq<CodeUnit>)
    ensures |s| == |Below(cps, INITIAL_N)|
  {
    if cps == [] then []
    else if cps[0] < INITIAL_N then [cps[0]] + Basics(cps[1..])
    else Basics(cps[1..])
  }

  /** The encoder once the basic code points are copied: what was copied, and a delimiter unless that is nothing. */
  function EncoderStart(cps: seq<nat>): Encoder {
    var basics := Basics(cps);
    Encoder(0, INITIAL_BIAS, |basics|, if basics != [] then basics + [DELIMITER] else [])
  }

  function EncodedPoints(cps: seq<nat>): Result<seq<CodeUnit>, Error>
    requires CodePoints(cps)
  {
    EncodeFrom(cps, INITIAL_N, |Basics(cps)|, EncoderStart(cps))
  }

  function Encoded(input: seq<CodeUnit>): Result<seq<CodeUnit>, Error> {
    var cps :- PointsOf(input);
    EncodedPoints(cps)
  }

  /** One turn of the digit loop, seen on the digits still to be written. */
  lemma SpellingStep(q: nat, k: int, bias: int)
    ensures var t := Threshold(k, bias);
      if q < t then Spelling(DigitsOf(q, k, bias)) == [DigitToBasic(q)]
      else
        0 <= (q - t) / (BASE - t) < q && 0 <= (q - t) % (BASE - t) < BASE - t &&
        Spelling(DigitsOf(q, k, bias))
        == [DigitToBasic(t + (q - t) % (BASE - t))] + Spelling(DigitsOf((q - t) / (BASE - t), k + BASE, bias))
  {
    var t := Threshold(k, bias);
    if q >= t {
      DigitStep(q, t);
      var tail := DigitsOf((q - t) / (BASE - t), k + BASE, bias);
      assert DigitsOf(q, k, bias)[1..] == tail;
    }
  }

  lemma AppendedOne(whole: seq<CodeUnit>, front: seq<CodeUnit>, c: CodeUnit, rest: seq<CodeUnit>)
    requires whole == front + ([c] + rest)
    ensures whole == (front + [c]) + rest
  {
  }

  /** The digit loop, for the delta of one code point. */
  method WriteInteger(delta: nat, bias: int, output0: seq<CodeUnit>) returns (output: seq<CodeUnit>)
    ensures output == output0 + Spelling(DigitsOf(delta, BASE, bias))
  {
    hide DigitsOf, Spelling, DigitToBasic, AllDigits;
    ghost var whole := output0 + Spelling(DigitsOf(delta, BASE, bias));
    output := output0;
    var q: nat, k := delta, BASE;
    while true
      invariant whole == output + Spelling(DigitsOf(q, k, bias))
      decreases q
    {
      SpellingStep(q, k, bias);
      var t := Threshold(k, bias);
      if q < t {
        break;
      }
      var qMinusT, baseMinusT := q - t, BASE - t;
      var c := DigitToBasic(t + qMinusT % baseMinusT);
      AppendedOne(whole, output, c, Spelling(DigitsOf(qMinusT / baseMinusT, k + BASE, bias)));
      output := output + [c];
      q := qMinusT / baseMinusT;
      k := k + BASE;
    }
    output := output + [DigitToBasic(q)];
  }

  /** The inner loop of the main encoding loop. */
  method RunPass(input: seq<nat>, n: nat, basicLength: nat, s: Encoder) returns (r: Result<Encoder, Error>)
    ensures r == EncodePass(input, 0, n, s.handled + 1, basicLength, s)
  {
    hide EncodePass, DigitsOf, Spelling, AdaptedBias;
    var Encoder(delta, bias, handledCPCount, output) := s;
    var handledCPCountPlusOne := handledCPCount + 1;
    for j := 0 to |input|
      invariant EncodePass(input, 0, n, handledCPCountPlusOne, basicLength, s)
             == EncodePass(input, j, n, handledCPCountPlusOne, basicLength, Encoder(delta, bias, handledCPCount, output))
    {
      EncodePassNext(input, j, n, handledCPCountPlusOne, basicLength, Encoder(delta, bias, handledCPCount, output));
      if input[j] < n {
        delta := delta + 1;
        if delta > MAX_INT {
          return Err(Overflow);
        }
      }
      if input[j] == n {
        output := WriteInteger(delta, bias, output);
        bias := Adapt(delta, handledCPCountPlusOne, handledCPCount == basicLength);
        delta := 0;
        handledCPCount := handledCPCount + 1;
      }
    }
    EncodePassEnds(input, n, handledCPCountPlusOne, basicLength, Encoder(delta, bias, handledCPCount, output));
    return Ok(Encoder(delta, bias, handledCPCount, output));
  }

  /** The search for the next larger code point. */
  method FindNext(input: seq<nat>, n: nat) returns (m: nat)
    ensures m == NextPoint(input, 0, n, MAX_INT)
  {
    m := MAX_INT;
    for j := 0 to |input|
      invariant NextPoint(input, 0, n, MAX_INT) == NextPoint(input, j, n, m)
    {
      if n <= input[j] < m {
        m := input[j];
      }
    }
  }

  method CopyBasics(input: seq<nat>) returns (output: seq<CodeUnit>)
    ensures output == Basics(input)
  {
    output := [];
    assert input[0..] == input;
    for j := 0 to |input|
      invariant Basics(input) == output + Basics(input[j..])
    {
      assert input[j..][1..] == input[j + 1..];
      ghost var rest := Basics(input[j + 1..]);
      if input[j] < 0x80 {
        assert Basics(input[j..]) == [input[j]] + rest;
        assert output + ([input[j]] + rest) == (output + [input[j]]) + rest;
        output := output + [input[j]];
      } else {
        assert Basics(input[j..]) == rest;
      }
    }
  }

  /** The body of the main encoding loop, once the next code point is known. */
  method RunRound(input: seq<nat>, n: nat, m: nat, basicLength: nat, s: Encoder) returns (r: Result<Encoder, Error>)
    requires n <= m && s.handled == |Below(input, m)|
    ensures r == EncodeRound(input, n, m, basicLength, s)
  {
    var skipped := Skip(s, m - n);
    if skipped.Err? {
      return skipped;
    }
    var pass := RunPass(input, m, basicLength, skipped.value);
    if pass.Err? {
      return pass;
    }
    return Ok(pass.value.(delta := pass.value.delta + 1));
  }

  method Encode(string16: seq<CodeUnit>) returns (r: Result<seq<CodeUnit>, Error>)
    ensures r == Encoded(string16)
  {
    hide EncodeRound, PointsOf, CodePoints, NextPoint, Basics, Below;
    var decoded := Utf16Decode(string16);
    if decoded.Err? {
      return Err(decoded.error);
    }
    var input := decoded.value;
    var output := CopyBasics(input);
    var basicLength := |output|;
    if basicLength > 0 {
      output := output + [DELIMITER];
    }
    var n: nat := INITIAL_N;
    var s := Encoder(0, INITIAL_BIAS, basicLength, output);
    while s.handled < |input|
      invariant s.handled == |Below(input, n)|
      invariant EncodedPoints(input) == EncodeFrom(input, n, basicLength, s)
      decreases 0x11_0000 - n
    {
      var m := FindNext(input, n);
      NothingBetween(input, n);
      var round := RunRound(input, n, m, basicLength, s);
      if round.Err? {
        return Err(round.error);
      }
      s := round.value;
      n := m + 1;
    }
    return Ok(s.output);
  }
}
