/** The number layer of punycode.js: bias adaptation and generalized variable-length integers
    (sections 3.3 and 6.1 of RFC 3492). JavaScript numbers are modelled by unbounded integers:
    the overflow guards keep every value below 2^37, where doubles are exact. */
module Bootstring {
  import opened Arithmetic
  import opened Results

  const MAX_INT := 0x7FFF_FFFF
  const BASE := 36
  const T_MIN := 1
  const T_MAX := 26
  const SKEW := 38
  const DAMP := 700
  const INITIAL_BIAS := 72
  const INITIAL_N := 128

  /** The digit threshold at position k, written three times inline in the source. */
  function Threshold(k: int, bias: int): (t: int)
    ensures T_MIN <= t <= T_MAX
  {
    if k <= bias then T_MIN else if k >= bias + T_MAX then T_MAX else k - bias
  }

  // ---------- bias adaptation ----------

  /** The last expression of adapt. */
  function Slope(delta: nat): nat {
    QuotientBounds((BASE - T_MIN + 1) * delta, delta + SKEW);
    (BASE - T_MIN + 1) * delta / (delta + SKEW)
  }

  /** The scaling loop of adapt, as a recursion. */
  function Scale(delta: nat, k: nat): nat
    decreases delta
  {
    if delta > (BASE - T_MIN) * T_MAX / 2 then Scale(delta / (BASE - T_MIN), k + BASE)
    else k + Slope(delta)
  }

  /** What adapt starts from: delta damped or halved, plus its share per code point. */
  function Damped(delta: nat, numPoints: nat, firstTime: bool): nat
    requires numPoints > 0
  {
    var d := if firstTime then delta / DAMP else delta / 2;
    QuotientBounds(d, numPoints);
    d + d / numPoints
  }

  function AdaptedBias(delta: nat, numPoints: nat, firstTime: bool): nat
    requires numPoints > 0
  {
    Scale(Damped(delta, numPoints, firstTime), 0)
  }

  method Adapt(delta0: nat, numPoints: nat, firstTime: bool) returns (bias: nat)
    requires numPoints > 0
    ensures bias == AdaptedBias(delta0, numPoints, firstTime)
  {
    var k := 0;
    var delta: nat := if firstTime then delta0 / DAMP else delta0 / 2;
    QuotientBounds(delta, numPoints);
    delta := delta + delta / numPoints;
    assert delta == Damped(delta0, numPoints, firstTime);
    while delta > (BASE - T_MIN) * T_MAX / 2
      invariant 0 <= k
      invariant Scale(delta, k) == AdaptedBias(delta0, numPoints, firstTime)
      decreases delta
    {
      delta := delta / (BASE - T_MIN);
      k := k + BASE;
    }
    bias := k + Slope(delta);
  }

  /** Why a stale point count is harmless: for a delta below the count, halving first makes the count irrelevant. */
  lemma AdaptIgnoresCount(delta: nat, stale: nat, current: nat)
    requires delta < stale <= current
    ensures AdaptedBias(delta, stale, false) == AdaptedBias(delta, current, false)
  {
    QuotientBounds(delta / 2, stale);
    QuotientBounds(delta / 2, current);
    assert Damped(delta, stale, false) == Damped(delta, current, false);
  }

  // ---------- generalized variable-length integers ----------

  predicate AllDigits(ds: seq<nat>) {
    forall j :: 0 <= j < |ds| ==> ds[j] < BASE
  }

  /** The digits the encoder emits for q from position k on. */
  function DigitsOf(q: nat, k: int, bias: int): (ds: seq<nat>)
    ensures ds != [] && AllDigits(ds)
    decreases q
  {
    var t := Threshold(k, bias);
    if q < t then [q]
    else
      DigitStep(q, t);
      [t + (q - t) % (BASE - t)] + DigitsOf((q - t) / (BASE - t), k + BASE, bias)
  }

  /** The number a digit string starts with, and how many digits spell it; None if the string ends first. */
  function ValueOf(ds: seq<nat>, k: int, bias: int): (r: Option<(nat, nat)>)
    ensures r.Some? ==> 1 <= r.value.1 <= |ds|
  {
    if ds == [] then None
    else
      var t := Threshold(k, bias);
      if ds[0] < t then Some((ds[0], 1))
      else
        match ValueOf(ds[1..], k + BASE, bias)
        case None => None
        case Some((v, count)) =>
          MulGrows(BASE - t, 0, v);
          Some((ds[0] + (BASE - t) * v, count + 1))
  }

  /** One step of the encoder's digit loop splits q into a digit and a smaller quotient. */
  lemma DigitStep(q: nat, t: nat)
    requires T_MIN <= t <= T_MAX && t <= q
    ensures 0 <= (q - t) / (BASE - t) < q
    ensures 0 <= (q - t) % (BASE - t) < BASE - t
    ensures t + (q - t) % (BASE - t) + (BASE - t) * ((q - t) / (BASE - t)) == q
  {
    QuotientBounds(q - t, BASE - t);
    DivMod(q - t, BASE - t);
  }

  lemma DigitsOfStep(q: nat, k: int, bias: int)
    ensures var t := Threshold(k, bias);
      if q < t then DigitsOf(q, k, bias) == [q]
      else
        0 <= (q - t) / (BASE - t) < q && 0 <= (q - t) % (BASE - t) &&
        DigitsOf(q, k, bias) == [t + (q - t) % (BASE - t)] + DigitsOf((q - t) / (BASE - t), k + BASE, bias)
  {
    if q >= Threshold(k, bias) {
      DigitStep(q, Threshold(k, bias));
    }
  }

  lemma ValueOfCons(d: nat, ds: seq<nat>, k: int, bias: int)
    ensures var t := Threshold(k, bias);
      if d < t then ValueOf([d] + ds, k, bias) == Some((d, 1))
      else
        match ValueOf(ds, k + BASE, bias)
        case None => ValueOf([d] + ds, k, bias) == None
        case Some((v, count)) => ValueOf([d] + ds, k, bias) == Some((d + (BASE - t) * v, count + 1))
  {
    assert ([d] + ds)[1..] == ds;
  }

  /** Every number is read back from its digits, whatever follows them: the digits are self-delimiting. */
  lemma {:induction false} ValueOfDigits(q: nat, k: int, bias: int, rest: seq<nat>)
    ensures ValueOf(DigitsOf(q, k, bias) + rest, k, bias) == Some((q, |DigitsOf(q, k, bias)|))
    decreases q
  {
    hide DigitsOf, ValueOf, AllDigits;
    var t := Threshold(k, bias);
    DigitsOfStep(q, k, bias);
    if q < t {
      ValueOfCons(q, rest, k, bias);
    } else {
      var d, q' := t + (q - t) % (BASE - t), (q - t) / (BASE - t);
      var tail := DigitsOf(q', k + BASE, bias);
      DigitStep(q, t);
      ValueOfDigits(q', k + BASE, bias, rest);
      ValueOfCons(d, tail + rest, k, bias);
      assert [d] + tail + rest == [d] + (tail + rest);
    }
  }

  /** No number has two spellings: the digits read are the digits the encoder would have written. */
  lemma {:induction false} DigitsOfValue(ds: seq<nat>, k: int, bias: int)
    requires AllDigits(ds)
    requires ValueOf(ds, k, bias).Some?
    ensures var (v, count) := ValueOf(ds, k, bias).value;
      DigitsOf(v, k, bias) == ds[..count]
  {
    hide DigitsOf, ValueOf, AllDigits;
    var t := Threshold(k, bias);
    SomeDigit(ds, k, bias);
    var d, rest := ds[0], ds[1..];
    assert [d] + rest == ds;
    ValueOfCons(d, rest, k, bias);
    if d < t {
      DigitsOfStep(d, k, bias);
      assert ds[..1] == [d];
    } else {
      DigitsOfValue(rest, k + BASE, bias);
      var (v, count) := ValueOf(rest, k + BASE, bias).value;
      MoreDigits(d, t, v, k, bias);
      assert ds[..count + 1] == [d] + rest[..count];
    }
  }

  lemma SomeDigit(ds: seq<nat>, k: int, bias: int)
    requires ValueOf(ds, k, bias).Some?
    ensures ds != [] && (AllDigits(ds) ==> ds[0] < BASE && AllDigits(ds[1..]))
  {
  }

  lemma MoreDigits(d: nat, t: nat, v: nat, k: int, bias: int)
    requires t == Threshold(k, bias) <= d < BASE
    ensures (BASE - t) * v >= 0 && DigitsOf(d + (BASE - t) * v, k, bias) == [d] + DigitsOf(v, k + BASE, bias)
  {
    hide DigitsOf;
    MulGrows(BASE - t, 0, v);
    DivModUnique(d - t, v, BASE - t);
    var q := d + (BASE - t) * v;
    assert q - t == (d - t) + (BASE - t) * v;
    DigitsOfStep(q, k, bias);
  }
}
