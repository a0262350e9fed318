/** string_decoder.js: UTF-8 that arrives in pieces is handed on in pieces of whole characters. */
module Utf8Decoder {

  type Byte = n: nat | n < 256

  /** How many bytes the character has that a byte begins; none for a byte that begins none. */
  function Need(c: Byte): (n: nat)
    ensures n <= 4
  {
    if c < 0x80 then 1
    else if c / 0x20 == 0x06 then 2
    else if c / 0x10 == 0x0E then 3
    else if c / 0x08 == 0x1E then 4
    else 0
  }

  /** The leading bytes of section 3 of RFC 3629. */
  lemma LeadingBytes(c: Byte)
    ensures c < 0x80 ==> Need(c) == 1
    ensures 0x80 <= c < 0xC0 ==> Need(c) == 0
    ensures 0xC0 <= c < 0xE0 ==> Need(c) == 2
    ensures 0xE0 <= c < 0xF0 ==> Need(c) == 3
    ensures 0xF0 <= c < 0xF8 ==> Need(c) == 4
    ensures 0xF8 <= c ==> Need(c) == 0
    ensures Continues(c) <==> 0x80 <= c < 0xC0
  {
  }

  predicate Continues(c: Byte) {
    c / 0x40 == 0x02
  }

  predicate AllContinue(b: seq<Byte>) {
    forall k :: 0 <= k < |b| ==> Continues(b[k])
  }

  /** The bytes of a character, or the first of them. */
  predicate CharBegun(b: seq<Byte>) {
    b != [] && |b| <= Need(b[0]) && AllContinue(b[1..])
  }

  /** Whole characters. The structure of UTF-8 alone: what section 3 of RFC 3629 also rules out is in it. */
  predicate Whole(b: seq<Byte>) {
    b == [] || (0 < Need(b[0]) <= |b| && CharBegun(b[..Need(b[0])]) && Whole(b[Need(b[0])..]))
  }

  /** Whole characters, and perhaps the first bytes of one more. */
  predicate Begun(b: seq<Byte>) {
    b == [] || CharBegun(b) || (0 < Need(b[0]) <= |b| && CharBegun(b[..Need(b[0])]) && Begun(b[Need(b[0])..]))
  }

  /** The characters of whole characters. */
  function Chars(b: seq<Byte>): seq<seq<Byte>>
    requires Whole(b)
  {
    if b == [] then [] else [b[..Need(b[0])]] + Chars(b[Need(b[0])..])
  }

  lemma WholeCons(first: seq<Byte>, rest: seq<Byte>)
    requires CharBegun(first) && |first| == Need(first[0]) && Whole(rest)
    ensures Whole(first + rest) && Chars(first + rest) == [first] + Chars(rest)
  {
    var b := first + rest;
    assert b[..|first|] == first && b[|first|..] == rest;
  }

  lemma {:induction false} WholeAppend(a: seq<Byte>, b: seq<Byte>)
    requires Whole(a) && Whole(b)
    ensures Whole(a + b) && Chars(a + b) == Chars(a) + Chars(b)
    decreases |a|
  {
    hide CharBegun, Need, Whole, Chars;
    if a == [] {
      assert a + b == b;
      NoChars();
      assert [] + Chars(b) == Chars(b);
    } else {
      var first, rest := WholeParts(a);
      WholeAppend(rest, b);
      WholeCons(first, rest + b);
      assert a + b == first + (rest + b);
      assert [first] + (Chars(rest) + Chars(b)) == [first] + Chars(rest) + Chars(b);
    }
  }

  lemma NoChars()
    ensures Whole([]) && Chars([]) == []
  {
  }

  /** The first character, and the others. */
  lemma WholeParts(a: seq<Byte>) returns (first: seq<Byte>, rest: seq<Byte>)
    requires Whole(a) && a != []
    ensures a == first + rest && |rest| < |a| && CharBegun(first) && |first| == Need(first[0]) && Whole(rest)
    ensures Chars(a) == [first] + Chars(rest)
  {
    first, rest := a[..Need(a[0])], a[Need(a[0])..];
  }

  lemma {:induction false} WholeBegun(b: seq<Byte>)
    requires Whole(b)
    ensures Begun(b)
  {
    if b != [] {
      WholeBegun(b[Need(b[0])..]);
    }
  }

  /** What follows whole characters begins with a character. */
  lemma {:induction false} BegunRest(a: seq<Byte>, b: seq<Byte>)
    requires Whole(a) && Begun(a + b)
    ensures Begun(b)
  {
    if a == [] {
      assert a + b == b;
    } else {
      var n := Need(a[0]);
      assert (a + b)[n..] == a[n..] + b;
      if CharBegun(a + b) {
        assert a[n..] + b == [];
        assert b == [];
      } else {
        BegunRest(a[n..], b);
      }
    }
  }

  lemma {:induction false} BegunFront(a: seq<Byte>, b: seq<Byte>)
    requires Begun(a + b)
    ensures Begun(a)
    decreases |a|
  {
    if a != [] {
      var s := a + b;
      var n := Need(a[0]);
      if |a| <= n {
        var first := if |s| <= n then s else s[..n];
        assert |s| == n ==> s[..n] == s;
        assert CharBegun(first);
        assert forall k :: 0 <= k < |a[1..]| ==> a[1..][k] == first[1..][k];
      } else {
        assert s[..n] == a[..n] && s[n..] == a[n..] + b;
        BegunFront(a[n..], b);
      }
    }
  }

  // ---------- the search for an incomplete character ----------

  /** The number of last bytes, at most i, that begin a character longer than they are; the most of them. */
  function Scan(b: seq<Byte>, i: nat): (n: nat)
    requires i <= |b|
    ensures n <= i && (n > 0 ==> Need(b[|b| - n]) > n)
  {
    if i == 0 then 0 else if Need(b[|b| - i]) > i then i else Scan(b, i - 1)
  }

  lemma ScanFrom(b: seq<Byte>, i: nat)
    requires 0 < i <= |b|
    ensures Scan(b, i) == if Need(b[|b| - i]) > i then i else Scan(b, i - 1)
  {
  }

  lemma ScanNone(b: seq<Byte>)
    ensures Scan(b, 0) == 0
  {
  }

  /** The bits that tell. */
  lemma NeedIs(c: Byte)
    ensures c / 0x20 == 0x06 <==> Need(c) == 2
    ensures c / 0x10 == 0x0E <==> Need(c) == 3
    ensures c / 0x08 == 0x1E <==> Need(c) == 4
  {
  }

  function Incomplete(b: seq<Byte>): (n: nat)
    ensures n <= |b|
  {
    Scan(b, if |b| >= 3 then 3 else |b|)
  }

  /** In whole characters no last bytes begin a character longer than they are. */
  lemma {:induction false} NoneInWhole(b: seq<Byte>, tail: seq<Byte>, i: nat)
    requires Whole(b) && |tail| < i <= |b + tail|
    ensures Need((b + tail)[|b + tail| - i]) <= i
  {
    var n := Need(b[0]);
    var s := b + tail;
    var at := |s| - i;
    if at < n {
      if at > 0 {
        assert Continues(b[..n][1..][at - 1]);
        assert Need(s[at]) == 0;
      }
    } else {
      assert s[n..] == b[n..] + tail;
      NoneInWhole(b[n..], tail, i);
    }
  }

  /** What has begun and is not the beginning of one character begins with a whole one. */
  lemma BegunParts(b: seq<Byte>)
    requires Begun(b) && b != [] && !(CharBegun(b) && |b| < Need(b[0]))
    ensures var n := Need(b[0]); 0 < n <= |b| && CharBegun(b[..n]) && Begun(b[n..])
  {
    if CharBegun(b) {
      assert b[..|b|] == b && b[|b|..] == [];
    }
  }

  /** What has begun is whole characters and the bytes the search finds. */
  lemma {:induction false} Ends(b: seq<Byte>) returns (whole: seq<Byte>, tail: seq<Byte>)
    requires Begun(b)
    ensures b == whole + tail && Whole(whole)
    ensures tail != [] ==> CharBegun(tail) && |tail| < Need(tail[0])
  {
    hide Begun, CharBegun, Whole, Need;
    NoChars();
    if b == [] {
      whole, tail := [], [];
    } else if CharBegun(b) && |b| < Need(b[0]) {
      whole, tail := [], b;
    } else {
      BegunParts(b);
      var first, rest := b[..Need(b[0])], b[Need(b[0])..];
      whole, tail := Ends(rest);
      WholeCons(first, whole);
      assert b == first + whole + tail;
      whole := first + whole;
    }
  }

  lemma {:induction false} ScanFinds(b: seq<Byte>, whole: seq<Byte>, tail: seq<Byte>, i: nat)
    requires b == whole + tail && Whole(whole) && |tail| <= i <= |b|
    requires tail != [] ==> |tail| < Need(tail[0])
    ensures Scan(b, i) == |tail|
  {
    if i > |tail| {
      NoneInWhole(whole, tail, i);
      ScanFinds(b, whole, tail, i - 1);
    } else if i > 0 {
      assert b[|b| - i] == tail[0];
    }
  }

  /** The search finds exactly the bytes of the incomplete character at the end. */
  lemma IncompleteIs(b: seq<Byte>)
    requires Begun(b)
    ensures var i := Incomplete(b);
      Whole(b[..|b| - i]) && (i > 0 ==> CharBegun(b[|b| - i..]))
  {
    var whole, tail := Ends(b);
    ScanFinds(b, whole, tail, if |b| >= 3 then 3 else |b|);
    assert b[..|whole|] == whole && b[|whole|..] == tail;
  }

  // ---------- the decoder ----------

  function Flat(pieces: seq<seq<Byte>>): seq<Byte> {
    if pieces == [] then [] else Flat(pieces[..|pieces| - 1]) + pieces[|pieces| - 1]
  }

  predicate AllWhole(pieces: seq<seq<Byte>>) {
    forall k :: 0 <= k < |pieces| ==> Whole(pieces[k])
  }

  lemma FlatMore(pieces: seq<seq<Byte>>, piece: seq<Byte>)
    ensures Flat(pieces + [piece]) == Flat(pieces) + piece
  {
    assert (pieces + [piece])[..|pieces|] == pieces;
  }

  lemma {:induction false} FlatWhole(pieces: seq<seq<Byte>>)
    requires AllWhole(pieces)
    ensures Whole(Flat(pieces))
  {
    if pieces != [] {
      FlatWhole(pieces[..|pieces| - 1]);
      WholeAppend(Flat(pieces[..|pieces| - 1]), pieces[|pieces| - 1]);
    }
  }

  /** What was received is what was handed on and what is held; valid so far, it was handed on in whole characters. */
  ghost predicate Parted(received: seq<Byte>, pieces: seq<seq<Byte>>, held: seq<Byte>) {
    received == Flat(pieces) + held
    && (Begun(received) ==> AllWhole(pieces) && (held != [] ==> CharBegun(held)))
  }

  lemma BegunIsChar(b: seq<Byte>)
    requires Begun(b) && b != [] && |b| <= Need(b[0])
    ensures CharBegun(b) && (|b| == Need(b[0]) ==> Whole(b))
  {
    assert b[..|b|] == b && b[|b|..] == [];
  }

  /** What has come after whole pieces. */
  lemma BegunAfter(received: seq<Byte>, pieces: seq<seq<Byte>>, held: seq<Byte>, more: seq<Byte>)
    requires Parted(received, pieces, held) && Begun(received + more)
    ensures AllWhole(pieces) && Begun(held + more) && received + more == Flat(pieces) + (held + more)
  {
    hide Begun, Whole, Flat;
    BegunFront(received, more);
    FlatWhole(pieces);
    assert received + more == Flat(pieces) + (held + more);
    BegunRest(Flat(pieces), held + more);
  }

  lemma PartedFilled(received: seq<Byte>, pieces: seq<seq<Byte>>, held: seq<Byte>, more: seq<Byte>)
    requires Parted(received, pieces, held) && held != [] && |held + more| <= Need(held[0])
    ensures if |held + more| < Need(held[0]) then Parted(received + more, pieces, held + more)
            else Parted(received + more, pieces + [held + more], [])
  {
    hide Begun, Whole, CharBegun, Need, Flat;
    var all := held + more;
    assert received + more == Flat(pieces) + all;
    if Begun(received + more) {
      BegunAfter(received, pieces, held, more);
      BegunIsChar(all);
    }
    FlatMore(pieces, all);
    assert Flat(pieces) + all + [] == Flat(pieces) + all;
  }

  lemma PartedHandedOn(received: seq<Byte>, pieces: seq<seq<Byte>>, b: seq<Byte>)
    requires Parted(received, pieces, [])
    ensures var i := Incomplete(b);
      if i == 0 then Parted(received + b, pieces + [b], [])
      else if i < |b| then Parted(received + b, pieces + [b[..|b| - i]], b[|b| - i..])
      else Parted(received + b, pieces, b)
  {
    hide Begun, Whole, CharBegun, Incomplete, Flat;
    var i := Incomplete(b);
    var whole, tail := b[..|b| - i], b[|b| - i..];
    assert [] + b == b && Flat(pieces) + [] == Flat(pieces) && b + [] == b;
    if Begun(received + b) {
      BegunAfter(received, pieces, [], b);
      IncompleteIs(b);
    }
    if i == 0 {
      assert whole == b && tail == [];
      PartedMore(received, pieces, b, []);
    } else if i < |b| {
      assert b == whole + tail;
      PartedMore(received, pieces, whole, tail);
    } else {
      assert tail == b;
    }
  }

  lemma PartedMore(received: seq<Byte>, pieces: seq<seq<Byte>>, whole: seq<Byte>, tail: seq<Byte>)
    requires received == Flat(pieces)
    requires Begun(received + (whole + tail)) ==> AllWhole(pieces) && Whole(whole) && (tail != [] ==> CharBegun(tail))
    ensures Parted(received + (whole + tail), pieces + [whole], tail)
  {
    hide Begun, Whole, CharBegun, Flat;
    FlatMore(pieces, whole);
    assert Flat(pieces) + (whole + tail) == Flat(pieces) + whole + tail;
  }

  /** The state: everything received and everything handed on are history. */
  class StringDecoder {
    var charBuffer: array<Byte>
    var charReceived: nat
    var charLength: nat
    ghost var received: seq<Byte>
    ghost var pieces: seq<seq<Byte>>

    ghost predicate Valid()
      reads this, charBuffer
    {
      && charBuffer.Length == 4
      && (if charLength == 0 then charReceived == 0 else 0 < charReceived < charLength <= 4 && charLength == Need(charBuffer[0]))
      && Parted(received, pieces, charBuffer[..charReceived])
    }

    constructor ()
      ensures Valid() && received == [] && pieces == [] && fresh(charBuffer)
    {
      charBuffer := new Byte[4](_ => 0);
      charReceived, charLength, received, pieces := 0, 0, [], [];
    }

    /** Buffer.copy into charBuffer. */
    method Copy(b: seq<Byte>, start: nat, end: nat, at: nat)
      requires start <= end <= |b| && at + (end - start) <= charBuffer.Length
      modifies charBuffer
      ensures charBuffer[..at] == old(charBuffer[..at]) && charBuffer[..at + (end - start)] == old(charBuffer[..at]) + b[start..end]
    {
      for k := 0 to end - start
        invariant charBuffer[..at + k] == old(charBuffer[..at]) + b[start..start + k]
      {
        charBuffer[at + k] := b[start + k];
        assert b[start..start + k + 1] == b[start..start + k] + [b[start + k]];
        assert charBuffer[..at + k + 1] == charBuffer[..at + k] + [charBuffer[at + k]];
      }
      assert charBuffer[..at] == charBuffer[..at + (end - start)][..at];
    }

    /** Buffers what the incomplete character still lacks, as far as it has come. */
    method Fill(b: seq<Byte>) returns (out: seq<seq<Byte>>, i: nat)
      requires Valid() && charLength > 0
      modifies this, charBuffer
      ensures Valid() && charBuffer == old(charBuffer) && i <= |b| && pieces == old(pieces) + out
      ensures received == old(received) + b[..i] && (charLength > 0 ==> i == |b|)
    {
      hide Parted, Need;
      i := if |b| >= charLength - charReceived then charLength - charReceived else |b|;
      ghost var held := charBuffer[..charReceived];
      PartedFilled(received, pieces, held, b[..i]);
      Copy(b, 0, i, charReceived);
      assert charBuffer[0] == held[0];
      charReceived := charReceived + i;
      received := received + b[..i];
      assert charBuffer[..charReceived] == held + b[..i];
      if charReceived < charLength {
        return [], i;
      }
      out := [charBuffer[..charLength]];
      pieces := pieces + out;
      charReceived, charLength := 0, 0;
      assert charBuffer[..0] == [];
    }

    /** Hands on the whole characters, and buffers the bytes of an incomplete one. */
    method HandOn(b: seq<Byte>) returns (out: seq<seq<Byte>>)
      requires Valid() && charLength == 0
      modifies this, charBuffer
      ensures Valid() && charBuffer == old(charBuffer) && pieces == old(pieces) + out && received == old(received) + b
    {
      assert charBuffer[..0] == [];
      PartedHandedOn(received, pieces, b);
      received := received + b;
      var i := Announced(b);
      hide Parted, Need;
      if charLength == 0 {
        out := [b];
        pieces := pieces + out;
        return;
      }
      Copy(b, |b| - i, |b|, 0);
      assert charBuffer[..i] == b[|b| - i..];
      assert charBuffer[0] == charBuffer[..i][0];
      charReceived := i;
      if |b| - i > 0 {
        out := [b[..|b| - i]];
        pieces := pieces + out;
      } else {
        assert b[0..] == b;
        out := [];
      }
    }

    /** Whether one of the last three bytes announces more than there is. */
    method Announced(b: seq<Byte>) returns (i: nat)
      requires charLength == 0
      modifies this`charLength
      ensures i == Incomplete(b) && (if i == 0 then charLength == 0 else charLength == Need(b[|b| - i]))
    {
      hide Scan, Need;
      i := if |b| >= 3 then 3 else |b|;
      while i > 0
        invariant i <= 3 && i <= |b| && Scan(b, i) == Incomplete(b) && charLength == 0
      {
        var c := b[|b| - i];
        ScanFrom(b, i);
        NeedIs(c);
        if i == 1 && c / 0x20 == 0x06 {
          charLength := 2;
          break;
        }
        if i <= 2 && c / 0x10 == 0x0E {
          charLength := 3;
          break;
        }
        if i <= 3 && c / 0x08 == 0x1E {
          charLength := 4;
          break;
        }
        i := i - 1;
      }
      ScanNone(b);
    }

    /** write(buffer): every piece of the result is decoded, on its own, to a string. */
    method Write(buffer: seq<Byte>) returns (out: seq<seq<Byte>>)
      requires Valid()
      modifies this, charBuffer
      ensures Valid() && charBuffer == old(charBuffer) && pieces == old(pieces) + out && received == old(received) + buffer
    {
      out := [];
      var rest := buffer;
      if charLength != 0 {
        var i;
        out, i := Fill(buffer);
        assert buffer == buffer[..i] + buffer[i..];
        if i == |buffer| {
          return;
        }
        rest := buffer[i..];
      }
      var more := HandOn(rest);
      out := out + more;
    }
  }

  /** Of whole characters nothing is held back, and the pieces have their characters. */
  lemma NothingHeld(received: seq<Byte>, pieces: seq<seq<Byte>>, held: seq<Byte>)
    requires Parted(received, pieces, held) && Whole(received) && (held != [] ==> |held| < Need(held[0]))
    ensures held == [] && AllWhole(pieces) && CharsOf(pieces) == Chars(received)
  {
    WholeBegun(received);
    FlatWhole(pieces);
    WholeRest(Flat(pieces), held);
    if held != [] {
      assert false;
    }
    assert Flat(pieces) + [] == Flat(pieces);
    CharsOfFlat(pieces);
  }

  /**
   * When what a decoder has received is whole characters, however it was cut into chunks, it holds nothing back, and what it has
   * handed on has these characters: two decoders that have received the same have handed on the same.
   */
  lemma ChunksDoNotMatter(d: StringDecoder)
    requires d.Valid() && Whole(d.received)
    ensures d.charReceived == 0 && AllWhole(d.pieces) && CharsOf(d.pieces) == Chars(d.received)
  {
    hide Parted, Whole;
    NothingHeld(d.received, d.pieces, d.charBuffer[..d.charReceived]);
  }

  /** The characters of every piece, one after the other. */
  function CharsOf(pieces: seq<seq<Byte>>): seq<seq<Byte>>
    requires AllWhole(pieces)
  {
    if pieces == [] then [] else CharsOf(pieces[..|pieces| - 1]) + Chars(pieces[|pieces| - 1])
  }

  lemma {:induction false} CharsOfFlat(pieces: seq<seq<Byte>>)
    requires AllWhole(pieces)
    ensures Whole(Flat(pieces)) && CharsOf(pieces) == Chars(Flat(pieces))
  {
    if pieces != [] {
      CharsOfFlat(pieces[..|pieces| - 1]);
      WholeAppend(Flat(pieces[..|pieces| - 1]), pieces[|pieces| - 1]);
    }
  }

  lemma {:induction false} WholeRest(a: seq<Byte>, b: seq<Byte>)
    requires Whole(a) && Whole(a + b)
    ensures Whole(b)
  {
    if a == [] {
      assert a + b == b;
    } else {
      var n := Need(a[0]);
      assert (a + b)[n..] == a[n..] + b;
      WholeRest(a[n..], b);
    }
  }

  // ---------- text ----------

  /** The table of section 3 of RFC 3629. */
  function Utf8(point: nat): (b: seq<Byte>)
    requires point < 0x11_0000
  {
    if point < 0x80 then [point]
    else if point < 0x800 then [0xC0 + point / 0x40, 0x80 + point % 0x40]
    else if point < 0x1_0000 then [0xE0 + point / 0x1000, 0x80 + point / 0x40 % 0x40, 0x80 + point % 0x40]
    else [0xF0 + point / 0x4_0000, 0x80 + point / 0x1000 % 0x40, 0x80 + point / 0x40 % 0x40, 0x80 + point % 0x40]
  }

  /** The bits of the code point: after the mark of the length, six in each byte. */
  lemma Utf8Bits(point: nat)
    requires point < 0x11_0000
    ensures var b := Utf8(point);
      && (point < 0x80 ==> b == [point])
      && (0x80 <= point < 0x800 ==> |b| == 2 && (b[0] as int - 0xC0) * 0x40 + b[1] as int - 0x80 == point)
      && (0x800 <= point < 0x1_0000 ==>
            |b| == 3 && ((b[0] as int - 0xE0) * 0x40 + b[1] as int - 0x80) * 0x40 + b[2] as int - 0x80 == point)
      && (0x1_0000 <= point ==>
            |b| == 4 && (((b[0] as int - 0xF0) * 0x40 + b[1] as int - 0x80) * 0x40 + b[2] as int - 0x80) * 0x40 + b[3] as int - 0x80 == point)
  {
    var a, b, c := point / 0x40, point / 0x1000, point / 0x4_0000;
    assert point == 0x40 * a + point % 0x40 && a == 0x40 * b + a % 0x40 && b == 0x40 * c + b % 0x40;
    if 0x80 <= point < 0x800 {
      assert Utf8(point) == [0xC0 + a, 0x80 + point % 0x40];
    } else if 0x800 <= point < 0x1_0000 {
      assert Utf8(point) == [0xE0 + b, 0x80 + a % 0x40, 0x80 + point % 0x40];
    } else if 0x1_0000 <= point {
      assert Utf8(point) == [0xF0 + c, 0x80 + b % 0x40, 0x80 + a % 0x40, 0x80 + point % 0x40];
    }
  }

  predicate CodePoints(text: seq<nat>) {
    forall k :: 0 <= k < |text| ==> text[k] < 0x11_0000
  }

  function Encoded(text: seq<nat>): seq<seq<Byte>>
    requires CodePoints(text)
  {
    if text == [] then [] else [Utf8(text[0])] + Encoded(text[1..])
  }

  function Bytes(text: seq<nat>): seq<Byte>
    requires CodePoints(text)
  {
    if text == [] then [] else Utf8(text[0]) + Bytes(text[1..])
  }

  lemma Utf8IsChar(point: nat)
    requires point < 0x11_0000
    ensures CharBegun(Utf8(point)) && |Utf8(point)| == Need(Utf8(point)[0])
  {
    hide Need, Continues;
    var b := Utf8(point);
    LeadingBytes(b[0]);
    forall k | 0 <= k < |b[1..]| ensures Continues(b[1..][k]) {
      LeadingBytes(b[k + 1]);
    }
  }

  lemma {:induction false} TextIsWhole(text: seq<nat>)
    requires CodePoints(text)
    ensures Whole(Bytes(text)) && Chars(Bytes(text)) == Encoded(text)
  {
    hide Whole, Chars, CharBegun, Need, Utf8;
    if text == [] {
      NoChars();
    } else {
      Utf8IsChar(text[0]);
      TextIsWhole(text[1..]);
      WholeCons(Utf8(text[0]), Bytes(text[1..]));
    }
  }

  /** A text that came in UTF-8, in whatever chunks, is handed on code point by code point. */
  lemma TextArrives(d: StringDecoder, text: seq<nat>)
    requires d.Valid() && CodePoints(text) && d.received == Bytes(text)
    ensures d.charReceived == 0 && AllWhole(d.pieces) && CharsOf(d.pieces) == Encoded(text)
  {
    hide Whole, Chars;
    TextIsWhole(text);
    ChunksDoNotMatter(d);
  }
}
