/** The chunked coding of section 3.6.1 of RFC 2616: what the sender writes, and a receiver that reads it. */
module Chunked {
  import opened Arithmetic
  import opened Results

  /** One char a byte. */
  type Bytes = string

  const CRLF := "\r\n"

  function Flat(pieces: seq<Bytes>): Bytes {
    if pieces == [] then "" else pieces[0] + Flat(pieces[1..])
  }

  lemma {:induction false} FlatAppend(a: seq<Bytes>, b: seq<Bytes>)
    ensures Flat(a + b) == Flat(a) + Flat(b)
  {
    if a == [] {
      assert a + b == b;
    } else {
      assert (a + b)[1..] == a[1..] + b;
      FlatAppend(a[1..], b);
    }
  }

  lemma FlatOne(piece: Bytes)
    ensures Flat([piece]) == piece
  {
    assert [piece][1..] == [];
  }

  // ---------- the sender ----------

  function HexDigit(d: nat): (c: char)
    requires d < 16
    ensures IsHex(c) && HexValue(c) == d
  {
    if d < 10 then '0' + d as char else 'a' + (d - 10) as char
  }

  /** A number in base 16, as Number.prototype.toString writes it. */
  function Hex(n: nat): (s: Bytes)
    ensures s != []
  {
    if n < 16 then [HexDigit(n)] else Hex(n / 16) + [HexDigit(n % 16)]
  }

  function Chunk(data: Bytes): Bytes {
    Hex(|data|) + CRLF + data + CRLF
  }

  function Chunks(body: seq<Bytes>): Bytes {
    if body == [] then "" else Chunks(body[..|body| - 1]) + Chunk(body[|body| - 1])
  }

  datatype Field = Field(name: Bytes, value: Bytes) {
    function Line(): Bytes {
      name + ": " + value
    }
  }

  function Trailer(fields: seq<Field>): Bytes {
    if fields == [] then "" else fields[0].Line() + CRLF + Trailer(fields[1..])
  }

  function LastChunk(fields: seq<Field>): Bytes {
    "0" + CRLF + Trailer(fields) + CRLF
  }

  // ---------- the receiver ----------

  predicate IsHex(c: char) {
    '0' <= c <= '9' || 'a' <= c <= 'f'
  }

  function HexValue(c: char): nat
    requires IsHex(c)
  {
    if c <= '9' then (c - '0') as nat else (c - 'a') as nat + 10
  }

  /** The number s starts with, added to the digits already read, and what follows it. */
  function ReadHex(s: Bytes, acc: nat): (nat, Bytes) {
    if s != [] && IsHex(s[0]) then ReadHex(s[1..], acc * 16 + HexValue(s[0])) else (acc, s)
  }

  function ReadSize(s: Bytes): Option<(nat, Bytes)> {
    if s == [] || !IsHex(s[0]) then None
    else
      var (size, rest) := ReadHex(s, 0);
      if CRLF <= rest then Some((size, rest[2..])) else None
  }

  /** A line up to its CRLF, and what follows it. */
  function ReadLine(s: Bytes): (r: Option<(Bytes, Bytes)>)
    ensures r.Some? ==> |r.value.1| < |s|
  {
    if CRLF <= s then Some(("", s[2..]))
    else if s == [] then None
    else
      match ReadLine(s[1..])
      case None => None
      case Some((line, rest)) => Some(([s[0]] + line, rest))
  }

  /** Lines up to an empty one. */
  function ReadLines(s: Bytes): Option<(seq<Bytes>, Bytes)>
    decreases |s|
  {
    match ReadLine(s)
    case None => None
    case Some((line, rest)) =>
      if line == "" then Some(([], rest))
      else
        match ReadLines(rest)
        case None => None
        case Some((lines, rest)) => Some(([line] + lines, rest))
  }

  /** A body, the lines of its trailer, and the bytes after it. */
  datatype Received = Received(body: Bytes, trailer: seq<Bytes>, rest: Bytes)

  lemma ReadHexShrinks(s: Bytes, acc: nat)
    ensures |ReadHex(s, acc).1| <= |s|
  {
  }

  function Dechunk(s: Bytes): Option<Received>
    decreases |s|
  {
    match ReadSize(s)
    case None => None
    case Some((size, rest)) =>
      ReadHexShrinks(s, 0);
      if size == 0 then
        match ReadLines(rest)
        case None => None
        case Some((lines, rest)) => Some(Received("", lines, rest))
      else if |rest| < size || !(CRLF <= rest[size..]) then None
      else
        match Dechunk(rest[size + 2..])
        case None => None
        case Some(r) => Some(r.(body := rest[..size] + r.body))
  }

  // ---------- what the receiver makes of the sender's bytes ----------

  lemma {:induction false} ReadHexOfHex(n: nat, rest: Bytes)
    ensures ReadHex(Hex(n) + rest, 0) == ReadHex(rest, n)
    ensures IsHex((Hex(n) + rest)[0])
  {
    if n < 16 {
      assert ([HexDigit(n)] + rest)[1..] == rest;
    } else {
      QuotientBounds(n, 16);
      var c := HexDigit(n % 16);
      ReadHexOfHex(n / 16, [c] + rest);
      assert Hex(n) + rest == Hex(n / 16) + ([c] + rest);
      assert ([c] + rest)[1..] == rest;
    }
  }

  lemma ReadSizeOfHex(n: nat, rest: Bytes)
    ensures ReadSize(Hex(n) + CRLF + rest) == Some((n, rest))
  {
    ReadHexOfHex(n, CRLF + rest);
    assert Hex(n) + CRLF + rest == Hex(n) + (CRLF + rest);
    assert (CRLF + rest)[2..] == rest;
  }

  /** A line that a receiver can tell from the next. */
  predicate OneLine(line: Bytes) {
    line != "" && '\r' !in line
  }

  lemma {:induction false} ReadLineOf(line: Bytes, rest: Bytes)
    requires '\r' !in line
    ensures ReadLine(line + CRLF + rest) == Some((line, rest))
  {
    var s := line + CRLF + rest;
    if line == "" {
      assert s == CRLF + rest;
      assert s[2..] == rest;
    } else {
      ReadLineOf(line[1..], rest);
      assert s[0] != '\r';
      assert s[1..] == line[1..] + CRLF + rest;
      assert [line[0]] + line[1..] == line;
    }
  }

  function Lines(fields: seq<Field>): seq<Bytes> {
    if fields == [] then [] else [fields[0].Line()] + Lines(fields[1..])
  }

  predicate OneLineEach(fields: seq<Field>) {
    forall k :: 0 <= k < |fields| ==> OneLine(fields[k].Line())
  }

  lemma {:induction false} ReadLinesOfTrailer(fields: seq<Field>, rest: Bytes)
    requires OneLineEach(fields)
    ensures ReadLines(Trailer(fields) + CRLF + rest) == Some((Lines(fields), rest))
  {
    if fields == [] {
      ReadLineOf("", rest);
      assert Trailer(fields) + CRLF + rest == "" + CRLF + rest;
    } else {
      var line, after := fields[0].Line(), Trailer(fields[1..]) + CRLF + rest;
      ReadLineOf(line, after);
      assert OneLine(fields[0].Line());
      assert Trailer(fields) + CRLF + rest == line + CRLF + after;
      ReadLinesOfTrailer(fields[1..], rest);
    }
  }

  lemma DechunkLast(fields: seq<Field>, rest: Bytes)
    requires OneLineEach(fields)
    ensures Dechunk(LastChunk(fields) + rest) == Some(Received("", Lines(fields), rest))
  {
    var after := Trailer(fields) + CRLF + rest;
    ReadSizeOfHex(0, after);
    assert LastChunk(fields) + rest == Hex(0) + CRLF + after;
    ReadLinesOfTrailer(fields, rest);
  }

  lemma DechunkOne(data: Bytes, rest: Bytes, r: Received)
    requires data != "" && Dechunk(rest) == Some(r)
    ensures Dechunk(Chunk(data) + rest) == Some(r.(body := data + r.body))
  {
    var after := data + CRLF + rest;
    ReadSizeOfHex(|data|, after);
    assert Chunk(data) + rest == Hex(|data|) + CRLF + after;
    assert after[|data|..] == CRLF + rest;
    assert after[|data| + 2..] == rest;
    assert after[..|data|] == data;
  }

  predicate NoneEmpty(body: seq<Bytes>) {
    forall k :: 0 <= k < |body| ==> body[k] != ""
  }

  lemma Assoc(a: Bytes, b: Bytes, c: Bytes)
    ensures a + b + c == a + (b + c)
  {
  }

  lemma {:induction false} DechunkAfter(body: seq<Bytes>, rest: Bytes, r: Received)
    requires NoneEmpty(body) && Dechunk(rest) == Some(r)
    ensures Dechunk(Chunks(body) + rest) == Some(r.(body := Flat(body) + r.body))
  {
    hide Chunk, Dechunk;
    if body == [] {
      assert Chunks(body) + rest == rest;
      assert Flat(body) + r.body == r.body;
    } else {
      var front, last := body[..|body| - 1], body[|body| - 1];
      DechunkOne(last, rest, r);
      DechunkAfter(front, Chunk(last) + rest, r.(body := last + r.body));
      Assoc(Chunks(front), Chunk(last), rest);
      FlatAppend(front, [last]);
      FlatOne(last);
      assert front + [last] == body;
      Assoc(Flat(front), last, r.body);
    }
  }

  /** De-chunking gives back the body and the trailer, and stops exactly where the message ends. */
  lemma DechunkBody(body: seq<Bytes>, fields: seq<Field>, rest: Bytes)
    requires NoneEmpty(body) && OneLineEach(fields)
    ensures Dechunk(Chunks(body) + LastChunk(fields) + rest) == Some(Received(Flat(body), Lines(fields), rest))
  {
    DechunkLast(fields, rest);
    DechunkAfter(body, LastChunk(fields) + rest, Received("", Lines(fields), rest));
    assert Chunks(body) + LastChunk(fields) + rest == Chunks(body) + (LastChunk(fields) + rest);
    assert Flat(body) + "" == Flat(body);
  }

  // ---------- on the wire ----------

  /** The number that digits stand for to the base 16. */
  function Numeral(s: Bytes): nat
    requires forall k :: 0 <= k < |s| ==> '0' <= s[k] <= '9' || 'a' <= s[k] <= 'f'
  {
    if s == "" then 0
    else
      var c := s[|s| - 1];
      Numeral(s[..|s| - 1]) * 16 + if c <= '9' then (c - '0') as nat else (c - 'a') as nat + 10
  }

  /** A size is its digits to the base 16, without leading zeros. */
  lemma {:induction false} HexIs(n: nat)
    ensures forall k :: 0 <= k < |Hex(n)| ==> '0' <= Hex(n)[k] <= '9' || 'a' <= Hex(n)[k] <= 'f'
    ensures Numeral(Hex(n)) == n && (n > 0 ==> Hex(n)[0] != '0') && (n == 0 ==> Hex(n) == "0")
  {
    var s := Hex(n);
    if n >= 16 {
      HexIs(n / 16);
      assert s[..|s| - 1] == Hex(n / 16);
    } else {
      assert s[..0] == "";
    }
  }

  /** A chunk is the size, CR and LF, the data, CR and LF; the last one has no data, and the trailer in place of it. */
  lemma ChunkIs(data: Bytes, fields: seq<Field>)
    ensures Chunk(data) == Hex(|data|) + [13 as char, 10 as char] + data + [13 as char, 10 as char]
    ensures LastChunk(fields) == "0" + [13 as char, 10 as char] + Trailer(fields) + [13 as char, 10 as char]
  {
    assert CRLF == [13 as char, 10 as char];
  }

  /** A field is its name, a colon, a space and its value, on a line of its own. */
  lemma TrailerIs(name: Bytes, value: Bytes, fields: seq<Field>)
    ensures Trailer([]) == ""
    ensures Trailer([Field(name, value)] + fields) == name + [58 as char, 32 as char] + value + [13 as char, 10 as char] + Trailer(fields)
  {
    assert ([Field(name, value)] + fields)[1..] == fields;
    assert ": " == [58 as char, 32 as char] && CRLF == [13 as char, 10 as char];
    assert Field(name, value).Line() == name + [58 as char, 32 as char] + value;
  }
}
