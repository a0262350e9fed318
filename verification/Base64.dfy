/** Base64 in node_buffer.cc (section 4 of RFC 4648): the encoder, the lenient decoder, and the size estimate. */
module Base64 {
  import opened Results

  type Byte = n: nat | n < 256
  type Sextet = n: nat | n < 64

  // ---------- the two tables ----------

  function Digit(c: Sextet): (r: char)
    ensures Unbase64(r) == c
  {
    if c < 26 then 'A' + c as char
    else if c < 52 then 'a' + (c - 26) as char
    else if c < 62 then '0' + (c - 52) as char
    else if c == 62 then '+'
    else '/'
  }

  /** Negative for what is not a digit. */
  function Unbase64(c: char): (r: int)
    ensures r < 64
  {
    if 'A' <= c <= 'Z' then (c - 'A') as int
    else if 'a' <= c <= 'z' then (c - 'a') as int + 26
    else if '0' <= c <= '9' then (c - '0') as int + 52
    else if c == '+' then 62
    else if c == '/' then 63
    else if c == ' ' || c == '\n' || c == '\r' then -2
    else -1
  }

  // ---------- what encoding and decoding mean ----------

  /** Twenty-four bits as four digits; the parts of every bitwise or have no bit in common, and are added. */
  function First(a: Byte): Sextet {
    a / 4
  }

  function Second(a: Byte, b: Byte): Sextet {
    a % 4 * 16 + b / 16
  }

  function Third(b: Byte, c: Byte): Sextet {
    b % 16 * 4 + c / 64
  }

  function Fourth(c: Byte): Sextet {
    c % 64
  }

  function Digits(b: seq<Byte>): (d: seq<Sextet>)
  {
    if b == [] then []
    else if |b| == 1 then [First(b[0]), Second(b[0], 0)]
    else if |b| == 2 then [First(b[0]), Second(b[0], b[1]), Third(b[1], 0)]
    else [First(b[0]), Second(b[0], b[1]), Third(b[1], b[2]), Fourth(b[2])] + Digits(b[3..])
  }

  function Encoded(b: seq<Byte>): string {
    if b == [] then ""
    else if |b| == 1 then [Digit(First(b[0])), Digit(Second(b[0], 0)), '=', '=']
    else if |b| == 2 then [Digit(First(b[0])), Digit(Second(b[0], b[1])), Digit(Third(b[1], 0)), '=']
    else
      [Digit(First(b[0])), Digit(Second(b[0], b[1])), Digit(Third(b[1], b[2])), Digit(Fourth(b[2]))] + Encoded(b[3..])
  }

  /** The digits of a string, whatever else is in it. */
  function Sextets(s: string): seq<Sextet> {
    if s == "" then [] else if Unbase64(s[0]) < 0 then Sextets(s[1..]) else [Unbase64(s[0])] + Sextets(s[1..])
  }

  function FirstByte(p: Sextet, q: Sextet): Byte {
    p * 4 + q / 16
  }

  function SecondByte(q: Sextet, r: Sextet): Byte {
    q % 16 * 16 + r / 4
  }

  function ThirdByte(r: Sextet, t: Sextet): Byte {
    r % 4 * 64 + t
  }

  /** The bytes that whole groups of digits stand for, and those of a last short group. */
  function Bytes(d: seq<Sextet>): (b: seq<Byte>)
    ensures |b| <= |d|
  {
    if |d| < 2 then []
    else if |d| == 2 then [FirstByte(d[0], d[1])]
    else if |d| == 3 then [FirstByte(d[0], d[1]), SecondByte(d[1], d[2])]
    else [FirstByte(d[0], d[1]), SecondByte(d[1], d[2]), ThirdByte(d[2], d[3])] + Bytes(d[4..])
  }

  lemma GroupInverse(a: Byte, b: Byte, c: Byte)
    ensures FirstByte(First(a), Second(a, b)) == a
    ensures SecondByte(Second(a, b), Third(b, c)) == b
    ensures ThirdByte(Third(b, c), Fourth(c)) == c
  {
  }

  /** Decoding the digits gives the bytes back. */
  lemma {:induction false} BytesOfDigits(b: seq<Byte>)
    ensures Bytes(Digits(b)) == b
    decreases |b|
  {
    hide First, Second, Third, Fourth, FirstByte, SecondByte, ThirdByte;
    if |b| == 1 {
      GroupInverse(b[0], 0, 0);
    } else if |b| == 2 {
      GroupInverse(b[0], b[1], 0);
    } else if |b| > 2 {
      GroupInverse(b[0], b[1], b[2]);
      BytesOfDigits(b[3..]);
      assert Digits(b)[4..] == Digits(b[3..]);
      assert b == [b[0], b[1], b[2]] + b[3..];
    }
  }

  lemma {:induction false} SextetsAppend(a: string, b: string)
    ensures Sextets(a + b) == Sextets(a) + Sextets(b)
  {
    hide Unbase64;
    if a == "" {
      assert a + b == b;
    } else {
      SextetsAppend(a[1..], b);
      assert (a + b)[1..] == a[1..] + b;
    }
  }

  predicate NoDigits(s: string) {
    forall k :: 0 <= k < |s| ==> Unbase64(s[k]) < 0
  }

  lemma {:induction false} NoDigitsNone(s: string)
    requires NoDigits(s)
    ensures Sextets(s) == []
  {
    if s != "" {
      NoDigitsNone(s[1..]);
    }
  }

  /** Characters that are not digits may be put in, or left out, anywhere. */
  lemma JunkIsSkipped(a: string, junk: string, b: string)
    requires NoDigits(junk)
    ensures Sextets(a + junk + b) == Sextets(a + b)
  {
    SextetsAppend(a + junk, b);
    SextetsAppend(a, junk);
    SextetsAppend(a, b);
    NoDigitsNone(junk);
  }

  lemma SextetsFour(p: char, q: char, r: char, t: char, rest: string)
    ensures Sextets([p, q, r, t] + rest) == Sextets([p]) + Sextets([q]) + Sextets([r]) + Sextets([t]) + Sextets(rest)
  {
    SextetsAppend([p], [q]);
    SextetsAppend([p, q], [r]);
    SextetsAppend([p, q, r], [t]);
    SextetsAppend([p, q, r, t], rest);
    assert [p] + [q] == [p, q] && [p, q] + [r] == [p, q, r] && [p, q, r] + [t] == [p, q, r, t];
  }

  lemma SextetsOfDigit(c: Sextet)
    ensures Sextets([Digit(c)]) == [c]
  {
    hide Digit, Unbase64;
    assert [Digit(c)][1..] == "";
  }

  lemma SextetsOfPad()
    ensures Sextets("=") == [] && Sextets("") == []
  {
    assert "="[1..] == "";
  }

  /** A group of four characters, of which the last two may be pads. */
  lemma SextetsOfGroup(p: Sextet, q: Sextet, r: Option<Sextet>, t: Option<Sextet>, rest: string)
    ensures var of := (d: Option<Sextet>) => if d.Some? then Digit(d.value) else '=';
      Sextets([Digit(p), Digit(q), of(r), of(t)] + rest)
      == [p, q] + (if r.Some? then [r.value] else []) + (if t.Some? then [t.value] else []) + Sextets(rest)
  {
    hide Digit, Unbase64, Sextets;
    var of := (d: Option<Sextet>) => if d.Some? then Digit(d.value) else '=';
    SextetsFour(Digit(p), Digit(q), of(r), of(t), rest);
    SextetsOfDigit(p);
    SextetsOfDigit(q);
    SextetsOfPad();
    if r.Some? {
      SextetsOfDigit(r.value);
    }
    if t.Some? {
      SextetsOfDigit(t.value);
    }
    assert [p] + [q] == [p, q];
  }

  /** The encoding has the digits of the bytes. */
  lemma {:induction false} SextetsOfEncoded(b: seq<Byte>)
    ensures Sextets(Encoded(b)) == Digits(b)
    decreases |b|
  {
    hide First, Second, Third, Fourth, Digit, Unbase64, Sextets;
    SextetsOfPad();
    if |b| == 1 {
      SextetsOfGroup(First(b[0]), Second(b[0], 0), None, None, "");
      assert Encoded(b) + "" == Encoded(b);
    } else if |b| == 2 {
      SextetsOfGroup(First(b[0]), Second(b[0], b[1]), Some(Third(b[1], 0)), None, "");
      assert Encoded(b) + "" == Encoded(b);
    } else if |b| > 2 {
      SextetsOfGroup(First(b[0]), Second(b[0], b[1]), Some(Third(b[1], b[2])), Some(Fourth(b[2])), Encoded(b[3..]));
      SextetsOfEncoded(b[3..]);
    }
  }

  /** What decodes to the digits of an encoding decodes to the bytes encoded, whatever characters were put in. */
  lemma RoundTrip(b: seq<Byte>, s: string)
    requires Sextets(s) == Sextets(Encoded(b))
    ensures Bytes(Sextets(s)) == b
  {
    SextetsOfEncoded(b);
    BytesOfDigits(b);
  }

  // ---------- in the numbers of RFC 4648 ----------

  /** Table 1 of section 4. */
  lemma AlphabetIs(c: Sextet)
    ensures c < 26 ==> Digit(c) as int == 'A' as int + c
    ensures 26 <= c < 52 ==> Digit(c) as int == 'a' as int + c - 26
    ensures 52 <= c < 62 ==> Digit(c) as int == '0' as int + c - 52
    ensures c == 62 ==> Digit(c) == '+'
    ensures c == 63 ==> Digit(c) == '/'
  {
  }

  /** Nothing else is a digit. */
  lemma OnlyDigits(c: char)
    ensures Unbase64(c) >= 0 <==> exists d: Sextet :: Digit(d) == c
    ensures Unbase64(c) >= 0 ==> Digit(Unbase64(c)) == c
  {
    if Unbase64(c) >= 0 {
      assert Digit(Unbase64(c)) == c;
    }
  }

  /** A string's digits are those of its characters, one after the other. */
  lemma SextetsMore(s: string, c: char)
    ensures Sextets(s + [c]) == Sextets(s) + if Unbase64(c) >= 0 then [Unbase64(c)] else []
  {
    SextetsAppend(s, [c]);
    assert [c][1..] == "";
  }

  /** Three bytes are a number of twenty-four bits, and four digits are it to the base 64. */
  lemma GroupNumber(a: Byte, b: Byte, c: Byte)
    ensures SameNumber(First(a), Second(a, b), Third(b, c), Fourth(c), a, b, c)
  {
  }

  /** Byte k of bytes, or zero. */
  function ByteAt(b: seq<Byte>, k: nat): Byte {
    if k < |b| then b[k] else 0
  }

  predicate SameNumber(p: Sextet, q: Sextet, r: Sextet, t: Sextet, a: Byte, b: Byte, c: Byte) {
    ((p * 64 + q) * 64 + r) * 64 + t == (a * 256 + b) * 256 + c
  }

  /** Four digits, or less and pads, if so many bytes are left. */
  function Four(p: Sextet, q: Sextet, r: Sextet, t: Sextet, left: int): string {
    [Digit(p), Digit(q), if left > 1 then Digit(r) else '=', if left > 2 then Digit(t) else '=']
  }

  ghost predicate Spelled(x: Byte, y: Byte, z: Byte, left: int, g: string) {
    exists p: Sextet, q: Sextet, r: Sextet, t: Sextet :: SameNumber(p, q, r, t, x, y, z) && g == Four(p, q, r, t, left)
  }

  /** Four characters are group k of bytes: the digits of its three bytes' number, and a pad for every byte there is not. */
  ghost predicate Spells(b: seq<Byte>, k: nat, g: string) {
    Spelled(ByteAt(b, 3 * k), ByteAt(b, 3 * k + 1), ByteAt(b, 3 * k + 2), |b| - 3 * k, g)
  }

  lemma GroupSpells(b: seq<Byte>)
    requires b != []
    ensures Spells(b, 0, Group(b))
  {
    hide First, Second, Third, Fourth, Digit, SameNumber;
    var x, y, z := ByteAt(b, 0), ByteAt(b, 1), ByteAt(b, 2);
    GroupNumber(x, y, z);
    var p, q, r, t := First(x), Second(x, y), Third(y, z), Fourth(z);
    assert Group(b) == Four(p, q, r, t, |b| - 3 * 0);
  }

  lemma SpellsAfter(b: seq<Byte>, k: nat, g: string)
    requires |b| > 3 && Spells(After(b), k, g)
    ensures Spells(b, k + 1, g)
  {
    hide Spelled;
    var rest := After(b);
    assert ByteAt(b, 3 * (k + 1)) == ByteAt(rest, 3 * k) && ByteAt(b, 3 * (k + 1) + 1) == ByteAt(rest, 3 * k + 1)
        && ByteAt(b, 3 * (k + 1) + 2) == ByteAt(rest, 3 * k + 2);
    assert |rest| - 3 * k == |b| - 3 * (k + 1);
  }

  /** Any group of an encoding, wherever it is. */
  lemma {:induction false} EncodedAt(b: seq<Byte>, k: nat)
    requires 3 * k < |b|
    ensures 4 * k + 4 <= |Encoded(b)| && Spells(b, k, Encoded(b)[4 * k..4 * k + 4])
    decreases k
  {
    hide Encoded, Group, Spells;
    EncodedGroup(b);
    if k == 0 {
      GroupSpells(b);
      assert Encoded(b)[0..4] == Group(b);
    } else {
      EncodedAt(After(b), k - 1);
      SpellsAfter(b, k - 1, Encoded(After(b))[4 * (k - 1)..4 * (k - 1) + 4]);
      assert Encoded(b)[4 * k..4 * k + 4] == Encoded(After(b))[4 * (k - 1)..4 * (k - 1) + 4];
    }
  }

  lemma BytesOfGroup(p: Sextet, q: Sextet, r: Sextet, t: Sextet)
    ensures SameNumber(p, q, r, t, FirstByte(p, q), SecondByte(q, r), ThirdByte(r, t))
  {
  }

  lemma BytesFirst(d: seq<Sextet>)
    requires |d| >= 4
    ensures |Bytes(d)| == 3 + |Bytes(d[4..])| && Bytes(d)[3..] == Bytes(d[4..])
    ensures SameNumber(d[0], d[1], d[2], d[3], Bytes(d)[0], Bytes(d)[1], Bytes(d)[2])
  {
    hide FirstByte, SecondByte, ThirdByte, SameNumber;
    BytesOfGroup(d[0], d[1], d[2], d[3]);
  }

  /** Four digits, wherever they are, are the number that their three bytes are. */
  lemma {:induction false} BytesAt(d: seq<Sextet>, k: nat)
    requires 4 * k + 4 <= |d|
    ensures 3 * k + 3 <= |Bytes(d)|
    ensures SameNumber(d[4 * k], d[4 * k + 1], d[4 * k + 2], d[4 * k + 3], Bytes(d)[3 * k], Bytes(d)[3 * k + 1], Bytes(d)[3 * k + 2])
    decreases k
  {
    hide Bytes, SameNumber;
    BytesFirst(d);
    if k > 0 {
      var rest, i, j := d[4..], 4 * k, 3 * k;
      BytesAt(rest, k - 1);
      assert rest[i - 4] == d[i] && rest[i - 3] == d[i + 1] && rest[i - 2] == d[i + 2] && rest[i - 1] == d[i + 3];
      assert Bytes(rest)[j - 3] == Bytes(d)[j] && Bytes(rest)[j - 2] == Bytes(d)[j + 1] && Bytes(rest)[j - 1] == Bytes(d)[j + 2];
    }
  }

  /** And two or three digits at the end are one or two bytes. */
  lemma {:induction false} BytesEnd(d: seq<Sextet>)
    ensures var g, rest := |d| / 4, |d| % 4;
      && |Bytes(d)| == 3 * g + (if rest > 1 then rest - 1 else 0)
      && (rest > 1 ==> Bytes(d)[3 * g] as int == d[4 * g] as int * 4 + d[4 * g + 1] as int / 16)
      && (rest > 2 ==> Bytes(d)[3 * g + 1] as int == d[4 * g + 1] as int % 16 * 16 + d[4 * g + 2] as int / 4)
    decreases |d|
  {
    hide ThirdByte;
    if |d| >= 4 {
      BytesEnd(d[4..]);
      assert |d[4..]| / 4 == |d| / 4 - 1 && |d[4..]| % 4 == |d| % 4;
      assert Bytes(d)[3..] == Bytes(d[4..]);
    }
  }

  /** Four characters for each three bytes begun. */
  lemma EncodedLengthIs(b: seq<Byte>)
    ensures |Encoded(b)| == 4 * ((|b| + 2) / 3)
  {
    EncodedSize(b);
  }

  // ---------- the encoder ----------

  function EncodedLength(n: nat): nat {
    (n + 2 - (n + 2) % 3) / 3 * 4
  }

  lemma EncodedLengths(n: nat)
    ensures EncodedLength(0) == 0 && EncodedLength(1) == EncodedLength(2) == 4 && EncodedLength(n + 3) == 4 + EncodedLength(n)
  {
  }

  function After(b: seq<Byte>): seq<Byte> {
    if |b| > 3 then b[3..] else []
  }

  /** The four characters of a group of up to three bytes. */
  function Group(b: seq<Byte>): (g: string)
    requires b != []
    ensures |g| == 4
  {
    var b1, b2 := if |b| > 1 then b[1] else 0, if |b| > 2 then b[2] else 0;
    [Digit(First(b[0])), Digit(Second(b[0], b1)),
     if |b| > 1 then Digit(Third(b1, b2)) else '=', if |b| > 2 then Digit(Fourth(b2)) else '=']
  }

  lemma EncodedGroup(b: seq<Byte>)
    requires b != []
    ensures Encoded(b) == Group(b) + Encoded(After(b))
  {
    hide First, Second, Third, Fourth, Digit;
    if |b| == 3 {
      assert b[3..] == [];
    }
  }

  lemma {:induction false} EncodedSize(b: seq<Byte>)
    ensures |Encoded(b)| == EncodedLength(|b|)
    decreases |b|
  {
    EncodedLengths(if |b| > 2 then |b| - 3 else 0);
    hide EncodedLength, Group;
    if b != [] {
      EncodedGroup(b);
      EncodedSize(After(b));
    }
  }

  lemma NextGroup(whole: string, front: string, b: seq<Byte>)
    requires b != [] && front + Encoded(b) == whole
    ensures (front + Group(b)) + Encoded(After(b)) == whole
  {
    EncodedGroup(b);
    hide Encoded, Group;
    assert front + (Group(b) + Encoded(After(b))) == front + Group(b) + Encoded(After(b));
  }

  /** base64Slice(start, end) of a buffer. */
  method Base64Slice(data: array<Byte>, start: nat, end: nat) returns (s: string)
    requires start <= end <= data.Length
    ensures s == Encoded(data[start..end])
  {
    hide Encoded, EncodedLength, Group, Digit, First, Second, Third, Fourth;
    var outLen := EncodedLength(end - start);
    var out := new char[outLen];
    var i, j := start, 0;
    ghost var whole := Encoded(data[start..end]);
    EncodedSize(data[start..end]);
    while i < end
      invariant start <= i && 0 <= j <= outLen
      invariant out[..j] + Encoded(if i <= end then data[i..end] else []) == whole && |whole| == outLen
      decreases end - i
    {
      ghost var rest, before := data[i..end], out[..j];
      EncodedSize(rest);
      EncodedLengths(if |rest| > 2 then |rest| - 3 else 0);
      NextGroup(whole, before, rest);
      EncodeGroup(data, i, end, out, j);
      i := i + 3;
      j := j + 4;
      assert out[..j] == before + Group(rest);
      assert After(rest) == if i <= end then data[i..end] else [];
    }
    EncodedSize([]);
    EncodedLengths(0);
    assert i == end ==> data[i..end] == [];
    assert |Encoded([])| == 0 && |out[..j] + Encoded([])| == outLen;
    assert out[..j] + Encoded([]) == out[..];
    s := out[..];
  }

  /** One turn of the loop: up to three bytes, as four characters; the buffer's end is checked for each. */
  method EncodeGroup(data: array<Byte>, i0: nat, end: nat, out: array<char>, j0: nat)
    requires i0 < end <= data.Length && j0 + 4 <= out.Length
    modifies out
    ensures out[..j0] == old(out[..j0]) && out[j0..j0 + 4] == Group(data[i0..end])
    ensures data[..] == old(data[..])
  {
    hide Digit, First, Second, Third, Fourth;
    var i, j := i0, j0;
    var b0 := data[i];
    i := i + 1;
    var b1, b1Oob := 0, true;
    if i < end {
      b1, b1Oob := data[i], false;
    }
    i := i + 1;
    var b2, b2Oob := 0, true;
    if i < end {
      b2, b2Oob := data[i], false;
    }
    out[j] := Digit(First(b0));
    j := j + 1;
    out[j] := Digit(Second(b0, b1));
    j := j + 1;
    out[j] := if b1Oob then '=' else Digit(Third(b1, b2));
    j := j + 1;
    out[j] := if b2Oob then '=' else Digit(Fourth(b2));
    assert out[j0..j0 + 4] == [out[j0], out[j0 + 1], out[j0 + 2], out[j0 + 3]];
  }

  // ---------- the decoder ----------

  datatype Error = OutOfBounds

  /** Up to the next digit, or the end. */
  function Skip(s: string, src: nat): (r: nat)
    requires src <= |s|
    ensures src <= r <= |s| && (r < |s| ==> Unbase64(s[r]) >= 0) && NoDigits(s[src..r])
    ensures Sextets(s[r..]) == Sextets(s[src..])
    decreases |s| - src
  {
    if src < |s| && Unbase64(s[src]) < 0 then
      assert s[src..][1..] == s[src + 1..];
      var r := Skip(s, src + 1);
      assert s[src..r] == [s[src]] + s[src + 1..r];
      r
    else src
  }

  lemma SkipNext(s: string, src: nat)
    requires src <= |s|
    ensures Skip(s, src) == if src < |s| && Unbase64(s[src]) < 0 then Skip(s, src + 1) else src
  {
    hide Sextets, Unbase64;
  }

  method SkipTo(s: string, src0: nat) returns (src: nat)
    requires src0 <= |s|
    ensures src == Skip(s, src0)
  {
    hide Skip, Sextets, Unbase64;
    src := src0;
    while src < |s| && Unbase64(s[src]) < 0
      invariant src0 <= src <= |s| && Skip(s, src) == Skip(s, src0)
    {
      SkipNext(s, src);
      src := src + 1;
    }
    SkipNext(s, src);
  }

  function Min(a: nat, b: nat): nat {
    if a < b then a else b
  }

  /** How many bytes may be written; past the end of the buffer the unsigned difference wraps around. */
  function Room(length: nat, size: nat, offset: nat, maxLength: Option<nat>): nat {
    var left := if offset <= size then size - offset else size - offset + 0x1_0000_0000_0000_0000;
    Min(length, if maxLength.Some? && left > maxLength.value then maxLength.value else if left > 0 then left else 0)
  }

  lemma RoomFits(length: nat, size: nat, offset: nat, maxLength: Option<nat>)
    ensures offset < size ==> offset + Room(length, size, offset, maxLength) <= size
  {
  }

  lemma SextetsFrom(s: string, src: nat)
    requires src < |s| && Unbase64(s[src]) >= 0
    ensures Sextets(s[src..]) == [Unbase64(s[src])] + Sextets(s[src + 1..])
  {
    assert s[src..][1..] == s[src + 1..];
  }

  lemma SextetsAtEnd(s: string)
    ensures Sextets(s[|s|..]) == []
  {
    assert s[|s|..] == "";
  }

  /** Skips to the next digit and takes it, unless the string ends; taken digits of the group still count as remaining. */
  method TakeDigit(s: string, src0: nat, remaining0: int, taken: nat) returns (found: Option<Sextet>, src: nat, remaining: int)
    requires src0 <= |s| && remaining0 - taken == |s| - src0
    ensures src0 <= src <= |s|
    ensures found.None? ==> Sextets(s[src0..]) == []
    ensures found.Some? ==> src > src0 && remaining - (taken + 1) == |s| - src && Sextets(s[src0..]) == [found.value] + Sextets(s[src..])
  {
    src := SkipTo(s, src0);
    remaining := remaining0 - (src - src0);
    if remaining <= taken || s[src] == '=' {
      SextetsAtEnd(s);
      return None, src, remaining;
    }
    SextetsFrom(s, src);
    return Some(Unbase64(s[src])), src + 1, remaining;
  }

  /** The buffer holds these bytes from dst0 on, as many as were written, and what it held elsewhere. */
  ghost predicate Holds(now: seq<Byte>, was: seq<Byte>, dst0: nat, dst: nat, bytes: seq<Byte>) {
    dst0 <= dst <= |was| == |now| && dst - dst0 <= |bytes|
    && now == was[..dst0] + bytes[..dst - dst0] + was[dst..]
  }

  /** What the digits of a group make of the bytes to be written. */
  lemma GroupBytes(d: seq<Sextet>)
    ensures |d| < 2 ==> Bytes(d) == []
    ensures |d| >= 2 ==> Bytes(d) != [] && Bytes(d)[..1] == [FirstByte(d[0], d[1])] && (|d| == 2 ==> |Bytes(d)| == 1)
    ensures |d| >= 3 ==> |Bytes(d)| >= 2 && Bytes(d)[..2] == [FirstByte(d[0], d[1]), SecondByte(d[1], d[2])]
                         && (|d| == 3 ==> |Bytes(d)| == 2)
    ensures |d| >= 4 ==> |Bytes(d)| >= 3 && Bytes(d)[3..] == Bytes(d[4..])
                         && Bytes(d)[..3] == [FirstByte(d[0], d[1]), SecondByte(d[1], d[2]), ThirdByte(d[2], d[3])]
  {
    hide FirstByte, SecondByte, ThirdByte;
  }

  /** One more byte. */
  lemma HoldsMore(now: seq<Byte>, was: seq<Byte>, dst0: nat, dst: nat, bytes: seq<Byte>, next: Byte)
    requires Holds(now, was, dst0, dst, bytes) && dst < |now| && dst - dst0 < |bytes| && bytes[dst - dst0] == next
    ensures Holds(now[dst := next], was, dst0, dst + 1, bytes)
  {
    assert bytes[..dst + 1 - dst0] == bytes[..dst - dst0] + [next];
  }

  /** One turn of the loop: a group of digits, as far as the string and the room go. */
  method DecodeGroup(s: string, src0: nat, data: array<Byte>, dst0: nat, dstEnd: nat) returns (src: nat, dst: nat, stop: bool)
    requires src0 < |s| && dst0 < dstEnd <= data.Length
    modifies data
    ensures src0 <= src <= |s| && dst <= dstEnd && Holds(data[..], old(data[..]), dst0, dst, Bytes(Sextets(s[src0..])))
    ensures stop ==> dst == dstEnd || dst - dst0 == |Bytes(Sextets(s[src0..]))|
    ensures !stop ==> src > src0 && dst == dst0 + 3 && Bytes(Sextets(s[src0..]))[3..] == Bytes(Sextets(s[src..]))
  {
    hide Sextets, Bytes, FirstByte, SecondByte, ThirdByte, Holds;
    ghost var d, was := Sextets(s[src0..]), data[..];
    ghost var bytes := Bytes(d);
    GroupBytes(d);
    HoldsNothing(was, dst0, bytes);
    var remaining := |s| - src0;
    var a, b, c, e;
    src, dst := src0, dst0;
    a, src, remaining := TakeDigit(s, src, remaining, 0);
    if a.None? {
      return src, dst, true;
    }
    b, src, remaining := TakeDigit(s, src, remaining, 1);
    if b.None? {
      return src, dst, true;
    }
    HoldsMore(data[..], was, dst0, dst, bytes, bytes[..1][0]);
    data[dst] := FirstByte(a.value, b.value);
    dst := dst + 1;
    if dst == dstEnd {
      return src, dst, true;
    }
    c, src, remaining := TakeDigit(s, src, remaining, 2);
    if c.None? {
      return src, dst, true;
    }
    HoldsMore(data[..], was, dst0, dst, bytes, bytes[..2][1]);
    data[dst] := SecondByte(b.value, c.value);
    dst := dst + 1;
    if dst == dstEnd {
      return src, dst, true;
    }
    e, src, remaining := TakeDigit(s, src, remaining, 3);
    if e.None? {
      return src, dst, true;
    }
    HoldsMore(data[..], was, dst0, dst, bytes, bytes[..3][2]);
    data[dst] := ThirdByte(c.value, e.value);
    dst := dst + 1;
    assert d[4..] == Sextets(s[src..]);
    return src, dst, false;
  }

  lemma HoldsNothing(was: seq<Byte>, dst0: nat, bytes: seq<Byte>)
    requires dst0 <= |was|
    ensures Holds(was, was, dst0, dst0, bytes)
  {
    assert was == was[..dst0] + bytes[..0] + was[dst0..];
  }

  lemma {:induction false} FewSextets(s: string)
    ensures |Sextets(s)| <= |s|
  {
    if s != "" {
      FewSextets(s[1..]);
    }
  }

  /** What the room amounts to, and what comes of there being none. */
  lemma RoomOutcome(was: seq<Byte>, s: string, offset: nat, maxLength: Option<nat>)
    ensures var room, bytes := Room(|s|, |was|, offset, maxLength), Bytes(Sextets(s));
      && (room > 0 && offset >= |was| ==> Outcome(Err(OutOfBounds), was, was, s, offset, maxLength))
      && (room == 0 ==> Outcome(Ok(0), was, was, s, offset, maxLength))
      && (offset < |was| ==> |bytes| <= |s| && room == if |s| < Allowed(|was|, offset, maxLength) then |s| else Allowed(|was|, offset, maxLength))
  {
    hide Sextets, Bytes;
    FewSextets(s);
    var bytes := Bytes(Sextets(s));
    if offset < |was| {
      assert was == was[..offset] + bytes[..0] + was[offset..];
    }
  }

  lemma HeldOutcome(now: seq<Byte>, was: seq<Byte>, s: string, offset: nat, maxLength: Option<nat>, dst: nat)
    requires var room, bytes := Room(|s|, |was|, offset, maxLength), Bytes(Sextets(s));
      && offset < |was| && Holds(now, was, offset, dst, bytes)
      && (dst == offset + room || dst == offset + |bytes|) && dst <= offset + room && dst <= offset + |bytes|
    ensures Outcome(Ok(dst - offset), now, was, s, offset, maxLength)
  {
    hide Sextets, Bytes, Room;
    RoomOutcome(was, s, offset, maxLength);
  }

  lemma BytesAtEnd(s: string)
    ensures Bytes(Sextets(s[|s|..])) == []
  {
    SextetsAtEnd(s);
  }

  /** Two stretches written one after the other. */
  lemma Joined(now: seq<Byte>, was: seq<Byte>, before: seq<Byte>, offset: nat, dst1: nat, dst: nat, bytes: seq<Byte>)
    requires Holds(before, was, offset, dst1, bytes) && Holds(now, before, dst1, dst, bytes[dst1 - offset..])
    ensures Holds(now, was, offset, dst, bytes)
  {
    assert bytes[..dst1 - offset] + bytes[dst1 - offset..][..dst - dst1] == bytes[..dst - offset];
    assert before[..dst1] == was[..offset] + bytes[..dst1 - offset];
    assert before[dst..] == was[dst..];
  }

  /** What is left of a buffer from an offset within it, or of what may be written there. */
  function Allowed(size: nat, offset: nat, maxLength: Option<nat>): nat
    requires offset < size
  {
    if maxLength.Some? && maxLength.value < size - offset then maxLength.value else size - offset
  }

  /**
   * What a write comes to. Within the buffer, as many of the bytes as fit and are allowed are written and counted, and no other byte
   * changes. Behind it, that is an error, unless there is nothing to write.
   */
  ghost predicate Outcome(r: Result<nat, Error>, now: seq<Byte>, was: seq<Byte>, s: string, offset: nat, maxLength: Option<nat>) {
    var bytes := Bytes(Sextets(s));
    if offset < |was| then
      && r.Ok? && r.value <= |bytes| && r.value <= |was| - offset && (maxLength.Some? ==> r.value <= maxLength.value)
      && (r.value == |bytes| || r.value == |was| - offset || maxLength == Some(r.value))
      && now == was[..offset] + bytes[..r.value] + was[offset + r.value..]
    else
      now == was &&
      if offset == |was| || s == "" || maxLength == Some(0) then r == Ok(0)
      else offset - |was| < 0x1_0000_0000_0000_0000 ==> r == Err(OutOfBounds)
  }

  /** base64Write(string, offset, maxLength) of a buffer. */
  method Base64Write(data: array<Byte>, s: string, offset: nat, maxLength0: Option<nat>) returns (r: Result<nat, Error>)
    modifies data
    ensures Outcome(r, data[..], old(data[..]), s, offset, maxLength0)
  {
    hide Sextets, Bytes, Holds, Room, Outcome;
    RoomOutcome(data[..], s, offset, maxLength0);
    var room := Room(|s|, data.Length, offset, maxLength0);
    if room > 0 && offset >= data.Length {
      return Err(OutOfBounds);
    }
    var src, dst, dstEnd := 0, offset, offset + room;
    ghost var bytes, was := Bytes(Sextets(s)), data[..];
    assert s[0..] == s;
    RoomFits(|s|, data.Length, offset, maxLength0);
    if room > 0 {
      HoldsNothing(was, offset, bytes);
    }
    while src < |s| && dst < dstEnd
      invariant src <= |s| && offset <= dst <= dstEnd && dst - offset <= |bytes|
      invariant room > 0 ==> dstEnd <= data.Length && Holds(data[..], was, offset, dst, bytes)
      invariant room == 0 ==> data[..] == was
      invariant bytes[dst - offset..] == Bytes(Sextets(s[src..]))
      decreases |s| - src
    {
      ghost var before, dst1, src1 := data[..], dst, src;
      var stop;
      src, dst, stop := DecodeGroup(s, src, data, dst, dstEnd);
      Joined(data[..], was, before, offset, dst1, dst, bytes);
      if stop {
        break;
      }
      assert bytes[dst - offset..] == bytes[dst1 - offset..][3..];
    }
    if src == |s| && dst < dstEnd {
      BytesAtEnd(s);
    }
    if room > 0 {
      HeldOutcome(data[..], was, s, offset, maxLength0, dst);
    }
    return Ok(dst - offset);
  }

  /** Writing an encoding, whatever other characters were put in, where there is room for the bytes encoded leaves them there. */
  lemma WritesBack(r: Result<nat, Error>, now: seq<Byte>, was: seq<Byte>, b: seq<Byte>, s: string, offset: nat, maxLength: Option<nat>)
    requires Outcome(r, now, was, s, offset, maxLength) && Sextets(s) == Sextets(Encoded(b))
    requires b != [] && offset + |b| <= |was| && (maxLength.Some? ==> |b| <= maxLength.value)
    ensures r == Ok(|b|) && |now| == |was| && now[..offset] == was[..offset] && now[offset + |b|..] == was[offset + |b|..]
    ensures now[offset..offset + |b|] == b
  {
    hide Sextets, Bytes, Encoded;
    RoundTrip(b, s);
    WholeFits(r, now, was, b, s, offset, maxLength);
    PartsOf(was[..offset], b, was[offset + |b|..]);
  }

  lemma WholeFits(r: Result<nat, Error>, now: seq<Byte>, was: seq<Byte>, b: seq<Byte>, s: string, offset: nat, maxLength: Option<nat>)
    requires Outcome(r, now, was, s, offset, maxLength) && Bytes(Sextets(s)) == b
    requires b != [] && offset + |b| <= |was| && (maxLength.Some? ==> |b| <= maxLength.value)
    ensures r == Ok(|b|) && now == was[..offset] + b + was[offset + |b|..]
  {
    hide Sextets, Bytes;
    assert b[..|b|] == b;
  }

  lemma PartsOf(x: seq<Byte>, y: seq<Byte>, z: seq<Byte>)
    ensures (x + y + z)[..|x|] == x && (x + y + z)[|x|..|x| + |y|] == y && (x + y + z)[|x| + |y|..] == z
  {
  }

  // ---------- the size estimate ----------

  /** From the length, and whether the last character and the one before it are pads; an unsigned difference wraps around. */
  function SizeOf(length: nat, lastPad: bool, secondPad: bool): nat {
    var size, remainder := length / 4 * 3, length % 4;
    var grown := if remainder == 0 then size
                 else if size == 0 && remainder == 1 then 0
                 else size + 1 + if remainder == 3 then 1 else 0;
    var pads := if grown == 0 then 0 else (if lastPad then 1 else 0) + if secondPad then 1 else 0;
    if grown >= pads then grown - pads else grown - pads + 0x1_0000_0000_0000_0000
  }

  /** base64_decoded_size */
  function DecodedSize(s: string): nat {
    SizeOf(|s|, |s| >= 1 && s[|s| - 1] == '=', |s| >= 2 && s[|s| - 2] == '=')
  }

  /** The estimate exceeds the string's length, by wrapping around, for the string of two pads and no other. */
  lemma SizeWraps(s: string)
    ensures DecodedSize(s) > |s| <==> |s| == 2 && s[0] == s[1] == '='
  {
    assert |s| >= 3 ==> |s| / 4 * 3 + |s| % 4 >= 2;
  }

  predicate TwoPads(s: string) {
    |s| == 2 && s[0] as int == 0x3D && s[1] as int == 0x3D
  }

  /** Three bytes for four characters, and one, one or two for the rest, less one for each pad at the end. */
  lemma SizeIs(s: string)
    ensures |s| < 2 ==> DecodedSize(s) == 0
    ensures TwoPads(s) ==> DecodedSize(s) == 0xFFFF_FFFF_FFFF_FFFF
    ensures |s| >= 2 && !TwoPads(s) ==>
      var rest := if |s| % 4 == 0 then 0 else if |s| % 4 == 3 then 2 else 1;
      var pads := (if s[|s| - 1] as int == 0x3D then 1 else 0) + if s[|s| - 2] as int == 0x3D then 1 else 0;
      DecodedSize(s) == |s| / 4 * 3 + rest - pads
  {
    assert '=' as int == 0x3D;
    assert |s| >= 3 ==> |s| / 4 * 3 + (if |s| % 4 == 0 then 0 else if |s| % 4 == 3 then 2 else 1) >= 2;
  }

  function Pads(n: nat): nat {
    if n % 3 == 1 then 2 else if n % 3 == 2 then 1 else 0
  }

  /** An encoding without its padding. */
  function Unpadded(b: seq<Byte>): string
    requires Pads(|b|) <= |Encoded(b)|
  {
    Encoded(b)[..|Encoded(b)| - Pads(|b|)]
  }

  lemma DigitIsNotPad(c: Sextet)
    ensures Digit(c) != '='
  {
  }

  lemma ModThree(n: nat)
    ensures (n + 3) % 3 == n % 3
  {
  }

  /** Padding is at the end, and nowhere else. */
  lemma {:induction false} PadsAtEnd(b: seq<Byte>, k: nat)
    requires k < |Encoded(b)|
    ensures |Encoded(b)| >= 4 && (Encoded(b)[k] == '=' <==> k >= |Encoded(b)| - Pads(|b|))
    decreases |b|
  {
    EncodedGroup(b);
    GroupPads(b);
    var rest := After(b);
    EncodedSize(b);
    EncodedSize(rest);
    if |b| > 3 {
      ModThree(|b| - 3);
      EncodedLengths(|b| - 3);
      EncodedLengths(|b| - 4);
      hide Encoded, Group, EncodedLength;
      PadsRest(rest);
      if k >= 4 {
        PadsAtEnd(rest, k - 4);
      }
    } else {
      EncodedLengths(0);
    }
  }

  /** The rest of an encoding holds at least its padding. */
  lemma PadsRest(b: seq<Byte>)
    ensures |Encoded(b)| >= Pads(|b|)
  {
    EncodedSize(b);
  }

  lemma GroupPads(b: seq<Byte>)
    requires b != []
    ensures forall k :: 0 <= k < 4 ==> (Group(b)[k] == '=' <==> |b| <= 2 && k >= 4 - Pads(|b|))
  {
    var b1, b2 := if |b| > 1 then b[1] else 0, if |b| > 2 then b[2] else 0;
    DigitIsNotPad(First(b[0]));
    DigitIsNotPad(Second(b[0], b1));
    DigitIsNotPad(Third(b1, b2));
    DigitIsNotPad(Fourth(b2));
    hide First, Second, Third, Fourth, Digit;
  }

  /** The last two characters of an encoding, and of one without its padding. */
  lemma LastTwo(b: seq<Byte>)
    requires b != []
    ensures var e, n := Encoded(b), |Encoded(b)| - Pads(|b|);
      |e| >= 4 && n >= 2 && (e[|e| - 1] == '=' <==> Pads(|b|) >= 1) && (e[|e| - 2] == '=' <==> Pads(|b|) == 2)
      && e[n - 1] != '=' && e[n - 2] != '='
  {
    hide Encoded;
    EncodedSize(b);
    EncodedLengths(0);
    var e := Encoded(b);
    PadsAtEnd(b, |e| - 1);
    PadsAtEnd(b, |e| - 2);
    PadsAtEnd(b, |e| - Pads(|b|) - 1);
    PadsAtEnd(b, |e| - Pads(|b|) - 2);
  }

  /** Four characters for three bytes, counting the padding. */
  lemma LengthOfBytes(n: nat)
    ensures EncodedLength(n) % 4 == 0 && EncodedLength(n) / 4 * 3 == n + Pads(n)
  {
    var groups := (n + 2 - (n + 2) % 3) / 3;
    assert EncodedLength(n) / 4 == groups;
  }

  lemma SizeOfPadded(n: nat)
    requires n > 0
    ensures SizeOf(EncodedLength(n), Pads(n) >= 1, Pads(n) == 2) == n
    ensures EncodedLength(n) >= Pads(n) && SizeOf(EncodedLength(n) - Pads(n), false, false) == n
  {
    LengthOfBytes(n);
    hide EncodedLength;
    var groups := EncodedLength(n) / 4;
    assert EncodedLength(n) == 4 * groups;
    if Pads(n) > 0 {
      assert (4 * groups - Pads(n)) / 4 == groups - 1 && (4 * groups - Pads(n)) % 4 == 4 - Pads(n);
    }
  }

  lemma NothingEncoded()
    ensures Encoded([]) == "" && EncodedLength(0) == 0 && SizeOf(0, false, false) == 0
  {
    EncodedLengths(0);
  }

  /** The estimate is exact on encodings. */
  lemma SizeIsExact(b: seq<Byte>)
    ensures DecodedSize(Encoded(b)) == |b|
  {
    hide Encoded, EncodedLength, SizeOf;
    EncodedSize(b);
    if b == [] {
      NothingEncoded();
    } else {
      SizeOfPadded(|b|);
      LastTwo(b);
    }
  }

  /** It is exact on encodings without their padding. */
  lemma SizeIsExactUnpadded(b: seq<Byte>)
    ensures Pads(|b|) <= |Encoded(b)| && DecodedSize(Unpadded(b)) == |b|
  {
    hide Encoded, EncodedLength, SizeOf;
    EncodedSize(b);
    if b == [] {
      NothingEncoded();
    } else {
      SizeOfPadded(|b|);
      LastTwo(b);
    }
  }
}
