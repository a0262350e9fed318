/** Newline-delimited JSON objects that arrive in chunks, as the driver's client and server both read them. */
module Framing {
  import opened Results
  import opened Text

  // ---------- JSON text ----------

  /** How far a reader of JSON is into nested objects and arrays, and whether it is in a string. */
  datatype Scan = Scan(depth: int, quoted: bool, escaped: bool)

  const START := Scan(0, false, false)

  function Step(st: Scan, c: char): Scan {
    if st.escaped then st.(escaped := false)
    else if st.quoted then if c == '\\' then st.(escaped := true) else if c == '"' then st.(quoted := false) else st
    else if c == '"' then st.(quoted := true)
    else if c == '{' || c == '[' then st.(depth := st.depth + 1)
    else if c == '}' || c == ']' then st.(depth := st.depth - 1)
    else st
  }

  function Scanned(s: string): Scan {
    if s == "" then START else Step(Scanned(s[..|s| - 1]), s[|s| - 1])
  }

  /** Every bracket and every string is closed, as in every JSON text. */
  predicate Balanced(s: string) {
    s != "" && Scanned(s) == START
  }

  /** The text of an object, on one line: it closes at its end, and not before. */
  ghost predicate ObjectText(s: string) {
    Balanced(s) && '\n' !in s && forall k :: 0 < k < |s| ==> !Balanced(s[..k])
  }

  /** JSON.stringify and JSON.parse, which is None where the source throws. */
  datatype Codec<!T> = Codec(stringify: T -> string, parse: string -> Option<T>)

  /** Objects are written on one line and read back; what is read is balanced. */
  ghost predicate Sound<T(!new)>(c: Codec<T>) {
    && (forall m :: ObjectText(c.stringify(m)) && c.parse(c.stringify(m)) == Some(m))
    && (forall s :: c.parse(s).Some? ==> Balanced(s))
  }

  /** Text within a JSON string (section 7 of RFC 8259): a backslash goes before each quotation mark and each backslash. */
  function Escaped(text: string): string {
    if text == "" then ""
    else
      var front, c := Escaped(text[..|text| - 1]), text[|text| - 1];
      if c == '"' || c == '\\' then front + ['\\'] + [c] else front + [c]
  }

  lemma ScannedMore(s: string, c: char)
    ensures Scanned(s + [c]) == Step(Scanned(s), c)
  {
    assert (s + [c])[..|s|] == s;
  }

  lemma {:induction false} EscapedScanned(s: string, text: string, depth: int)
    requires Scanned(s) == Scan(depth, true, false)
    ensures Scanned(s + Escaped(text)) == Scan(depth, true, false)
  {
    if text == "" {
      assert s + Escaped(text) == s;
    } else {
      var front, c := Escaped(text[..|text| - 1]), text[|text| - 1];
      EscapedScanned(s, text[..|text| - 1], depth);
      ScannedMore(s + front, '\\');
      ScannedMore(s + front + ['\\'], c);
      ScannedMore(s + front, c);
      assert s + (front + ['\\'] + [c]) == s + front + ['\\'] + [c];
      assert s + (front + [c]) == s + front + [c];
    }
  }

  /** Whatever is in a string, brackets and quotation marks included, does not count. */
  lemma QuotedScanned(s: string, text: string, depth: int)
    requires Scanned(s) == Scan(depth, false, false)
    ensures Scanned(s + ['"'] + Escaped(text) + ['"']) == Scan(depth, false, false)
  {
    hide Scanned;
    ScannedMore(s, '"');
    EscapedScanned(s + ['"'], text, depth);
    ScannedMore(s + ['"'] + Escaped(text), '"');
  }

  /** Text without brackets, strings and line ends. */
  predicate Plain(s: string) {
    forall k :: 0 <= k < |s| ==> s[k] !in "{}[]\"\\\n"
  }

  lemma {:induction false} PlainScanned(s: string)
    requires Plain(s)
    ensures Scanned("{" + s) == Scan(1, false, false)
  {
    if s == "" {
      assert ("{" + s)[..0] == "";
    } else {
      var front := s[..|s| - 1];
      PlainScanned(front);
      assert ("{" + s)[..|s|] == "{" + front;
    }
  }

  /** An object with nothing nested in it. */
  lemma PlainObject(body: string)
    requires Plain(body)
    ensures ObjectText("{" + body + "}")
  {
    var s := "{" + body + "}";
    PlainScanned(body);
    assert s[..|s| - 1] == "{" + body;
    forall k | 0 < k < |s| ensures !Balanced(s[..k]) {
      assert s[..k] == "{" + body[..k - 1];
      PlainScanned(body[..k - 1]);
    }
  }

  /** A printer of objects, and the parser that knows what was printed. */
  ghost function Printed<T(!new)>(text: T -> string): Codec<T> {
    Codec(text, s => if exists m :: text(m) == s then var m :| text(m) == s; Some(m) else None)
  }

  /** There are such codecs: every printer of objects that prints no two alike has one. */
  lemma PrintedSound<T(!new)>(text: T -> string)
    requires forall m :: ObjectText(text(m))
    requires forall a, b :: text(a) == text(b) ==> a == b
    ensures Sound(Printed(text))
  {
    var c := Printed(text);
    forall m ensures ObjectText(c.stringify(m)) && c.parse(c.stringify(m)) == Some(m) {
      assert c.stringify(m) == text(m);
    }
    forall s | c.parse(s).Some? ensures Balanced(s) {
      var m :| text(m) == s;
      assert ObjectText(text(m));
    }
  }

  function Decimal(n: nat): (s: string)
    ensures s != "" && forall k :: 0 <= k < |s| ==> '0' <= s[k] <= '9'
  {
    if n < 10 then ['0' + n as char] else Decimal(n / 10) + ['0' + (n % 10) as char]
  }

  lemma {:induction false} DecimalsDiffer(a: nat, b: nat)
    requires Decimal(a) == Decimal(b)
    ensures a == b
  {
    var s := Decimal(a);
    if a >= 10 && b >= 10 {
      assert s[..|s| - 1] == Decimal(a / 10) == Decimal(b / 10);
      DecimalsDiffer(a / 10, b / 10);
      assert s[|s| - 1] == '0' + (a % 10) as char == '0' + (b % 10) as char;
    }
  }

  /** A part of an object's text from its beginning is no object. */
  lemma PrefixIsNoObject<T(!new)>(c: Codec<T>, m: T, p: string)
    requires Sound(c) && p != "" && p < c.stringify(m)
    ensures c.parse(p) == None
  {
    assert ObjectText(c.stringify(m));
    assert p == c.stringify(m)[..|p|];
  }

  // ---------- the reader ----------

  /** What is left of an object that has begun, and the objects handled. */
  datatype Reader<T> = Reader(partial: string, handled: seq<T>)

  function FeedPiece<T>(c: Codec<T>, r: Reader<T>, piece: string): Reader<T> {
    if piece == "" then r
    else
      match c.parse(piece)
      case Some(o) => Reader("", r.handled + [o])
      case None => r.(partial := piece)
  }

  function FeedPieces<T>(c: Codec<T>, r: Reader<T>, pieces: seq<string>): Reader<T>
    decreases |pieces|
  {
    if pieces == [] then r else FeedPieces(c, FeedPiece(c, r, pieces[0]), pieces[1..])
  }

  /** The pieces of a chunk, the first continuing what was left of the chunk before. */
  function Pieces(partial: string, chunk: string): (p: seq<string>)
    ensures p != []
  {
    var pieces := Split(chunk, '\n');
    [partial + pieces[0]] + pieces[1..]
  }

  function Feed<T>(c: Codec<T>, r: Reader<T>, chunk: string): Reader<T> {
    FeedPieces(c, r, Pieces(r.partial, chunk))
  }

  // ---------- what has been received ----------

  function Lines<T>(c: Codec<T>, msgs: seq<T>): string {
    if msgs == [] then "" else c.stringify(msgs[0]) + "\n" + Lines(c, msgs[1..])
  }

  /** Every object is followed by a line feed. */
  lemma LinesIs<T>(c: Codec<T>, m: T, msgs: seq<T>)
    ensures Lines(c, []) == "" && Lines(c, [m] + msgs) == c.stringify(m) + [10 as char] + Lines(c, msgs)
  {
    assert ([m] + msgs)[1..] == msgs && "\n" == [10 as char];
  }

  /** Before message k, and into it by p. */
  function Expected<T(==)>(c: Codec<T>, msgs: seq<T>, k: nat, p: string): Reader<T>
    requires k <= |msgs|
  {
    if k < |msgs| && p == c.stringify(msgs[k]) then Reader("", msgs[..k + 1]) else Reader(p, msgs[..k])
  }

  /** The stream from message k and p characters on. */
  predicate Rest<T>(c: Codec<T>, msgs: seq<T>, k: nat, p: string, chunk: string)
    requires k <= |msgs|
  {
    if k == |msgs| then p == "" && chunk == ""
    else p <= c.stringify(msgs[k]) && p + chunk <= Lines(c, msgs[k..])
  }

  lemma FeedOne<T(!new)>(c: Codec<T>, msgs: seq<T>, k: nat, p: string, piece: string)
    requires Sound(c) && k < |msgs| && p + piece <= c.stringify(msgs[k])
    ensures var r := Expected(c, msgs, k, p);
      FeedPiece(c, r, r.partial + piece) == Expected(c, msgs, k, p + piece)
  {
    var m := msgs[k];
    assert ObjectText(c.stringify(m));
    var r := Expected(c, msgs, k, p);
    if p == c.stringify(m) {
      assert piece == "" && p + piece == p;
    } else {
      assert msgs[..k + 1] == msgs[..k] + [m];
      if p + piece != "" && p + piece != c.stringify(m) {
        PrefixIsNoObject(c, m, p + piece);
      }
    }
  }

  /** A chunk within one message. */
  lemma FeedWithin<T(!new)>(c: Codec<T>, msgs: seq<T>, k: nat, p: string, chunk: string)
    requires Sound(c) && k < |msgs| && p + chunk <= c.stringify(msgs[k])
    ensures Feed(c, Expected(c, msgs, k, p), chunk) == Expected(c, msgs, k, p + chunk)
  {
    var r := Expected(c, msgs, k, p);
    assert ObjectText(c.stringify(msgs[k]));
    assert forall i :: 0 <= i < |chunk| ==> chunk[i] == (p + chunk)[|p| + i];
    SplitNone(chunk, '\n');
    assert Pieces(r.partial, chunk) == [r.partial + chunk];
    FeedOne(c, msgs, k, p, chunk);
    assert [r.partial + chunk][1..] == [];
    var one := FeedPiece(c, r, r.partial + chunk);
    assert FeedPieces(c, one, []) == one;
  }

  lemma {:induction false} LinesAppend<T>(c: Codec<T>, a: seq<T>, b: seq<T>)
    ensures Lines(c, a + b) == Lines(c, a) + Lines(c, b)
  {
    if a == [] {
      assert a + b == b;
    } else {
      LinesAppend(c, a[1..], b);
      assert (a + b)[1..] == a[1..] + b;
    }
  }

  lemma LinesMore<T>(c: Codec<T>, msgs: seq<T>, k: nat)
    requires k < |msgs|
    ensures Lines(c, msgs[..k + 1]) == Lines(c, msgs[..k]) + c.stringify(msgs[k]) + "\n"
    ensures Lines(c, msgs[k..]) == c.stringify(msgs[k]) + "\n" + Lines(c, msgs[k + 1..])
  {
    assert msgs[..k + 1] == msgs[..k] + [msgs[k]] && msgs[k..][1..] == msgs[k + 1..];
    LinesAppend(c, msgs[..k], [msgs[k]]);
    assert [msgs[k]][1..] == [];
    assert Lines(c, [msgs[k]]) == c.stringify(msgs[k]) + "\n" + "";
  }

  lemma Emptied<T(!new)>(c: Codec<T>, msgs: seq<T>, k: nat)
    requires Sound(c) && k <= |msgs|
    ensures Expected(c, msgs, k, "") == Reader("", msgs[..k])
  {
    if k < |msgs| {
      assert ObjectText(c.stringify(msgs[k]));
    }
  }

  /** The first line of a chunk ends message k; the rest of the chunk is as good as a chunk of its own. */
  lemma FeedLine<T(!new)>(c: Codec<T>, msgs: seq<T>, k: nat, p: string, line: string, rest: string)
    requires Sound(c) && k < |msgs| && p + line == c.stringify(msgs[k])
    ensures Feed(c, Expected(c, msgs, k, p), line + ['\n'] + rest) == Feed(c, Expected(c, msgs, k + 1, ""), rest)
  {
    var r := Expected(c, msgs, k, p);
    assert ObjectText(c.stringify(msgs[k]));
    assert forall i :: 0 <= i < |line| ==> line[i] == (p + line)[|p| + i];
    SplitNone(line, '\n');
    SplitConcat(line, '\n', rest);
    var pieces := Pieces(r.partial, line + ['\n'] + rest);
    assert pieces == [r.partial + line] + Split(rest, '\n');
    FeedOne(c, msgs, k, p, line);
    Emptied(c, msgs, k + 1);
    assert pieces[1..] == Split(rest, '\n');
    assert Pieces("", rest) == Split(rest, '\n') by {
      assert "" + Split(rest, '\n')[0] == Split(rest, '\n')[0];
    }
  }

  /** Whatever the chunks, the objects handled are those whose text has arrived, and what is left is what has of the next one. */
  lemma {:induction false} FeedValid<T(!new)>(c: Codec<T>, msgs: seq<T>, k: nat, p: string, chunk: string) returns (k': nat, p': string)
    requires Sound(c) && k <= |msgs| && Rest(c, msgs, k, p, chunk)
    ensures k <= k' <= |msgs| && (if k' < |msgs| then p' <= c.stringify(msgs[k']) else p' == "")
    ensures Lines(c, msgs[..k']) + p' == Lines(c, msgs[..k]) + p + chunk
    ensures Feed(c, Expected(c, msgs, k, p), chunk) == Expected(c, msgs, k', p')
    decreases |msgs| - k
  {
    if k == |msgs| {
      k', p' := k, "";
      assert Pieces("", "") == [""] && [""][1..] == [];
      assert Lines(c, msgs[..k]) + "" + "" == Lines(c, msgs[..k]) + "";
    } else if |p + chunk| <= |c.stringify(msgs[k])| {
      LinesMore(c, msgs, k);
      assert p + chunk <= c.stringify(msgs[k]) by {
        PrefixOf(p + chunk, c.stringify(msgs[k]), "\n" + Lines(c, msgs[k + 1..]));
      }
      FeedWithin(c, msgs, k, p, chunk);
      k', p' := k, p + chunk;
    } else {
      var text := c.stringify(msgs[k]);
      LinesMore(c, msgs, k);
      var line, rest := Cut(p, chunk, text, Lines(c, msgs[k + 1..]));
      FeedLine(c, msgs, k, p, line, rest);
      RestNext(c, msgs, k, rest);
      k', p' := FeedValid(c, msgs, k + 1, "", rest);
      Joined(Lines(c, msgs[..k]), p, line, rest);
    }
  }

  lemma PrefixOf(a: string, b: string, more: string)
    requires |a| <= |b| && a <= b + more
    ensures a <= b
  {
    assert a == (b + more)[..|a|] == b[..|a|];
  }

  /** The chunk up to the end of the message, and after it. */
  lemma Cut(p: string, chunk: string, text: string, after: string) returns (line: string, rest: string)
    requires p <= text && |p + chunk| > |text| && p + chunk <= text + "\n" + after
    ensures chunk == line + ['\n'] + rest && p + line == text && rest <= after
  {
    var all, n := text + "\n" + after, |text| - |p|;
    line, rest := chunk[..n], chunk[n + 1..];
    assert forall i :: 0 <= i < |p + chunk| ==> (p + chunk)[i] == all[i];
    assert forall i :: 0 <= i < |chunk| ==> chunk[i] == (p + chunk)[|p| + i] == all[|p| + i];
    assert p + line == text;
    assert chunk[n] == all[|text|] == '\n';
    assert chunk == line + [chunk[n]] + rest;
    assert forall i :: 0 <= i < |rest| ==> rest[i] == chunk[n + 1 + i] == all[|text| + 1 + i] == after[i];
  }

  lemma RestNext<T>(c: Codec<T>, msgs: seq<T>, k: nat, rest: string)
    requires k < |msgs| && rest <= Lines(c, msgs[k + 1..])
    ensures Rest(c, msgs, k + 1, "", rest)
  {
    assert "" + rest == rest;
    if k + 1 == |msgs| {
      assert msgs[k + 1..] == [];
    }
  }

  lemma Joined(before: string, p: string, line: string, rest: string)
    ensures before + (p + line) + "\n" + "" + rest == before + p + (line + ['\n'] + rest)
  {
  }
}
