/** What the calls on an OutgoingMessage do, as functions, and the bytes they amount to. */
module OutgoingSpec {
  import opened Results
  import opened Chunked

  /** A string, held as its bytes under the encoding in use, with the encoding it was passed with; or a Buffer. */
  datatype Data = Text(bytes: Bytes, encoding: Option<string>) | Binary(bytes: Bytes)

  /** What _storeHeader renders, and the flags it settles. */
  datatype Head = Head(text: Bytes, chunked: bool, hasBody: bool, last: bool)

  datatype Message = Message(head: Head, headerSent: bool, trailer: Bytes, output: seq<Data>, finished: bool)

  /** What a call makes of the message, and what it writes on the socket. */
  datatype Step = Step(m: Message, wrote: Bytes)

  function Pending(output: seq<Data>): Bytes {
    if output == [] then "" else output[0].bytes + Pending(output[1..])
  }

  function Buffered(output: seq<Data>, data: Data): seq<Data> {
    if data.bytes == "" then output
    else if output == [] || data.Binary? then output + [data]
    else
      var last := output[|output| - 1];
      if last.Text? && (data.encoding.None? || last.encoding == data.encoding) then
        output[..|output| - 1] + [Text(last.bytes + data.bytes, last.encoding)]
      else output + [data]
  }

  /** Writes what is pending and then the data, on a live connection; buffers the data on another. */
  function WriteRaw(m: Message, live: bool, data: Data): Step {
    if live then Step(m.(output := []), Pending(m.output) + data.bytes)
    else Step(m.(output := Buffered(m.output, data)), "")
  }

  function Send(m: Message, live: bool, data: Data): Step {
    if m.headerSent then WriteRaw(m, live, data)
    else
      match data
      case Text(bytes, encoding) => WriteRaw(m.(headerSent := true), live, Text(m.head.text + bytes, encoding))
      case Binary(_) =>
        WriteRaw(m.(headerSent := true, output := [Text(m.head.text, Some("ascii"))] + m.output), live, data)
  }

  function Write(m: Message, live: bool, chunk: Data): Step {
    if !m.head.hasBody || chunk.bytes == "" then Step(m, "")
    else if !m.head.chunked then Send(m, live, chunk)
    else
      match chunk
      case Text(bytes, encoding) => Send(m, live, Text(Hex(|bytes|) + CRLF + bytes + CRLF, encoding))
      case Binary(bytes) =>
        var size := Send(m, live, Text(Hex(|bytes|) + CRLF, None));
        var data := Send(size.m, live, chunk);
        var end := Send(data.m, live, Text(CRLF, None));
        Step(end.m, size.wrote + data.wrote + end.wrote)
  }

  /** The data passed to end, unless it counts as none. */
  function Given(head: Head, data: Option<Data>): Option<Data> {
    if !head.hasBody || (data.Some? && data.value.Text? && data.value.bytes == "") then None
    else data
  }

  predicate Hot(m: Message, live: bool, data: Option<Data>) {
    !m.headerSent && data.Some? && data.value.Text? && data.value.bytes != "" && m.output == [] && live
  }

  /** The whole message in one write. */
  function EndHot(m: Message, data: Bytes): Step {
    Step(m.(headerSent := true, finished := true),
         if m.head.chunked then m.head.text + Hex(|data|) + CRLF + data + "\r\n0\r\n" + m.trailer + "\r\n"
         else m.head.text + data)
  }

  /** The last chunk; without chunked coding an empty write, for the header's sake. */
  function SendEnd(m: Message, live: bool): Step {
    var end := Send(m, live, Text(if m.head.chunked then "0\r\n" + m.trailer + "\r\n" else "", None));
    Step(end.m.(finished := true), end.wrote)
  }

  function EndGeneral(m: Message, live: bool, data: Option<Data>): Step {
    var body := if data.Some? then Write(m, live, data.value) else Step(m, "");
    var end := SendEnd(body.m, live);
    Step(end.m, body.wrote + end.wrote)
  }

  function End(m: Message, live: bool, data: Option<Data>): Step {
    if m.finished then Step(m, "")
    else
      var given := Given(m.head, data);
      if Hot(m, live, given) then EndHot(m, given.value.bytes) else EndGeneral(m, live, given)
  }

  /** Everything pending goes out, on a writable socket. */
  function Flush(m: Message, writable: bool): Step {
    if writable then Step(m.(output := []), Pending(m.output)) else Step(m, "")
  }

  // ---------- the bytes a message amounts to ----------

  /** What a handler has said so far. */
  datatype Log = Log(body: seq<Bytes>, trailer: seq<Field>, ended: bool)

  const SILENT := Log([], [], false)

  function Wire(head: Head, log: Log): Bytes {
    if log.body == [] && !log.ended then ""
    else if head.chunked then head.text + Chunks(log.body) + (if log.ended then LastChunk(log.trailer) else "")
    else head.text + Flat(log.body)
  }

  function Said(head: Head, log: Log, data: Bytes): Log {
    if head.hasBody && data != "" then log.(body := log.body + [data]) else log
  }

  function SaidLast(head: Head, log: Log, data: Option<Data>): Log {
    if log.ended then log
    else if data.Some? then Said(head, log, data.value.bytes).(ended := true)
    else log.(ended := true)
  }

  /** The bytes delivered and the bytes pending are, in this order, those of what the handler said. */
  predicate Holds(m: Message, log: Log, delivered: Bytes) {
    && m.head.text != "" && NoneEmpty(log.body) && (!m.head.hasBody ==> log.body == [])
    && delivered + Pending(m.output) == Wire(m.head, log)
    && m.headerSent == (log.body != [] || log.ended)
    && m.finished == log.ended
    && (!m.finished ==> m.trailer == Trailer(log.trailer))
    && (!m.headerSent ==> m.output == [])
  }

  lemma NewHolds(head: Head)
    requires head.text != ""
    ensures Holds(Message(head, false, "", [], false), SILENT, "")
  {
  }

  lemma {:induction false} PendingAppend(a: seq<Data>, b: seq<Data>)
    ensures Pending(a + b) == Pending(a) + Pending(b)
  {
    if a == [] {
      assert a + b == b;
    } else {
      assert (a + b)[1..] == a[1..] + b;
      PendingAppend(a[1..], b);
    }
  }

  lemma PendingOne(data: Data)
    ensures Pending([data]) == data.bytes
  {
    assert [data][1..] == [];
  }

  /** Merging strings does not change what is pending. */
  lemma BufferedPends(output: seq<Data>, data: Data)
    ensures Pending(Buffered(output, data)) == Pending(output) + data.bytes
  {
    hide Pending;
    PendingAppend(output, [data]);
    PendingOne(data);
    if output != [] {
      var last := output[|output| - 1];
      PendingMerged(output, Text(last.bytes + data.bytes, if last.Text? then last.encoding else None), data);
    }
  }

  lemma PendingMerged(output: seq<Data>, merged: Data, data: Data)
    requires output != [] && merged.bytes == output[|output| - 1].bytes + data.bytes
    ensures Pending(output[..|output| - 1] + [merged]) == Pending(output) + data.bytes
  {
    hide Pending;
    var front, last := output[..|output| - 1], output[|output| - 1];
    assert front + [last] == output;
    PendingAppend(front, [last]);
    PendingAppend(front, [merged]);
    PendingOne(last);
    PendingOne(merged);
    Assoc(Pending(front), last.bytes, data.bytes);
  }

  /** The header, if it has not been sent. */
  function Due(m: Message): Bytes {
    if m.headerSent then "" else m.head.text
  }

  /** The step adds these bytes to what the message has sent and has pending, and the header before them if it is due. */
  predicate Adds(m: Message, live: bool, s: Step, bytes: Bytes) {
    && s.wrote + Pending(s.m.output) == Pending(m.output) + Due(m) + bytes
    && s.m == m.(headerSent := true, output := s.m.output)
    && (if live then s.m.output == [] else s.wrote == "")
  }

  lemma SendAdds(m: Message, live: bool, data: Data)
    requires !m.headerSent ==> m.output == []
    ensures Adds(m, live, Send(m, live, data), data.bytes)
  {
    var sent := if data.Text? && !m.headerSent then Text(m.head.text + data.bytes, data.encoding) else data;
    var output := if data.Binary? && !m.headerSent then [Text(m.head.text, Some("ascii"))] + m.output else m.output;
    BufferedPends(output, sent);
    PendingOne(Text(m.head.text, Some("ascii")));
    if data.Binary? && !m.headerSent {
      assert output == [Text(m.head.text, Some("ascii"))];
    }
  }

  lemma AddsThen(m: Message, live: bool, s: Step, a: Bytes, t: Step, b: Bytes)
    requires Adds(m, live, s, a) && Adds(s.m, live, t, b)
    ensures Adds(m, live, Step(t.m, s.wrote + t.wrote), a + b)
  {
    hide Pending;
    var before, between, after := Pending(m.output) + Due(m), Pending(s.m.output), Pending(t.m.output);
    calc {
      s.wrote + t.wrote + after;
    == { Assoc(s.wrote, t.wrote, after); }
      s.wrote + (between + "" + b);
    == { assert between + "" == between; }
      s.wrote + (between + b);
    == { Assoc(s.wrote, between, b); }
      before + a + b;
    == { Assoc(before, a, b); }
      before + (a + b);
    }
  }

  /** One send or three, the same bytes. */
  lemma WriteAdds(m: Message, live: bool, chunk: Data)
    requires !m.headerSent ==> m.output == []
    requires m.head.hasBody && chunk.bytes != ""
    ensures Adds(m, live, Write(m, live, chunk), if m.head.chunked then Chunk(chunk.bytes) else chunk.bytes)
  {
    hide Send;
    if !m.head.chunked {
      SendAdds(m, live, chunk);
    } else if chunk.Text? {
      SendAdds(m, live, Text(Chunk(chunk.bytes), chunk.encoding));
    } else {
      hide Adds;
      var sizeLine := Text(Hex(|chunk.bytes|) + CRLF, None);
      var size := Send(m, live, sizeLine);
      SendAdds(m, live, sizeLine);
      AddsSent(m, live, size, sizeLine.bytes);
      var data := Send(size.m, live, chunk);
      SendAdds(size.m, live, chunk);
      AddsSent(size.m, live, data, chunk.bytes);
      var end := Send(data.m, live, Text(CRLF, None));
      SendAdds(data.m, live, Text(CRLF, None));
      AddsThen(m, live, size, sizeLine.bytes, data, chunk.bytes);
      AddsThen(m, live, Step(data.m, size.wrote + data.wrote), sizeLine.bytes + chunk.bytes, end, CRLF);
    }
  }

  lemma AddsSent(m: Message, live: bool, s: Step, bytes: Bytes)
    requires Adds(m, live, s, bytes)
    ensures s.m.headerSent
  {
  }

  function Tail(m: Message): Bytes {
    if m.head.chunked then "0\r\n" + m.trailer + "\r\n" else ""
  }

  /** The hot path writes the bytes of the general path, and leaves the message as it would. */
  lemma HotPath(m: Message, live: bool, data: Option<Data>)
    requires Hot(m, live, data) && m.head.hasBody
    ensures EndHot(m, data.value.bytes) == EndGeneral(m, live, data)
  {
    hide Write, Send;
    var d := data.value.bytes;
    WriteAdds(m, live, data.value);
    var body := Write(m, live, data.value);
    var end := Send(body.m, live, Text(Tail(m), None));
    SendAdds(body.m, live, Text(Tail(m), None));
    AddsThen(m, live, body, if m.head.chunked then Chunk(d) else d, end, Tail(m));
    HotBytes(m, d, body.wrote + end.wrote);
  }

  /** Two concatenations, written as one. */
  lemma Joined(x: Bytes, p: Bytes, q: Bytes, t: Bytes, z: Bytes)
    ensures x + p + (q + t + z) == x + (p + q) + t + z
  {
    Assoc(q, t, z);
    Assoc(x + p, q, t + z);
    Assoc(x, p, q);
    Assoc(x + (p + q), t, z);
  }

  lemma Prefixed(text: Bytes, y: Bytes, t: Bytes, z: Bytes)
    ensures text + (y + t + z) == text + y + t + z
  {
    Assoc(text, y + t, z);
    Assoc(text, y, t);
  }

  lemma HotJoin(text: Bytes, l: Bytes, c: Bytes, d: Bytes, a: Bytes, q: Bytes, t: Bytes, z: Bytes)
    requires c + q == a
    ensures text + l + c + d + a + t + z == text + (l + c + d + c + (q + t + z))
  {
    Assoc(text, l, c);
    Assoc(text, l + c, d);
    Joined(l + c + d, c, q, t, z);
    Prefixed(text, l + c + d + a, t, z);
    Assoc(text, l + c + d, a);
  }

  lemma HotChunk(text: Bytes, d: Bytes, trailer: Bytes)
    ensures text + Hex(|d|) + CRLF + d + "\r\n0\r\n" + trailer + "\r\n" == text + (Chunk(d) + ("0\r\n" + trailer + "\r\n"))
  {
    hide Hex;
    Ends();
    HotJoin(text, Hex(|d|), CRLF, d, "\r\n0\r\n", "0\r\n", trailer, "\r\n");
  }

  lemma Ends()
    ensures CRLF + "0\r\n" == "\r\n0\r\n"
  {
  }

  lemma HotBytes(m: Message, d: Bytes, wrote: Bytes)
    requires wrote + Pending([]) == Pending([]) + m.head.text + ((if m.head.chunked then Chunk(d) else d) + Tail(m))
    ensures wrote == EndHot(m, d).wrote
  {
    hide Hex, Chunk;
    NothingAdded(wrote);
    NothingAdded(m.head.text);
    NothingAdded(d);
    HotChunk(m.head.text, d, m.trailer);
  }

  lemma NothingAdded(s: Bytes)
    ensures s + "" == s == "" + s
  {
  }

  /** Adding to a message what is added to its log keeps it true to its log. */
  lemma AddsHolds(m: Message, log: Log, delivered: Bytes, live: bool, s: Step, bytes: Bytes, log': Log)
    requires Holds(m, log, delivered) && !log.ended && Adds(m, live, s, bytes)
    requires Wire(m.head, log') == Wire(m.head, log) + Due(m) + bytes
    requires NoneEmpty(log'.body) && (log'.body != [] || log'.ended) && log'.trailer == log.trailer
    requires !m.head.hasBody ==> log'.body == []
    ensures Holds(s.m.(finished := log'.ended), log', delivered + s.wrote)
  {
    calc {
      delivered + s.wrote + Pending(s.m.output);
    == { Assoc(delivered, s.wrote, Pending(s.m.output)); }
      delivered + (Pending(m.output) + Due(m) + bytes);
    == { Assoc4(delivered, Pending(m.output), Due(m), bytes); }
      delivered + Pending(m.output) + Due(m) + bytes;
    }
  }

  lemma Assoc4(a: Bytes, b: Bytes, c: Bytes, d: Bytes)
    ensures a + b + c + d == a + (b + c + d)
  {
  }

  lemma WireGrows(head: Head, log: Log, data: Bytes)
    requires !log.ended && data != ""
    ensures Wire(head, log.(body := log.body + [data]))
         == Wire(head, log) + (if log.body != [] then "" else head.text) + (if head.chunked then Chunk(data) else data)
  {
    hide Chunk;
    var body := log.body + [data];
    if head.chunked {
      assert body[..|body| - 1] == log.body;
      Assoc(head.text, Chunks(log.body), Chunk(data));
    } else {
      FlatAppend(log.body, [data]);
      FlatOne(data);
      Assoc(head.text, Flat(log.body), data);
    }
  }

  lemma WriteHolds(m: Message, log: Log, delivered: Bytes, live: bool, chunk: Data)
    requires Holds(m, log, delivered) && !log.ended
    ensures var s := Write(m, live, chunk);
      Holds(s.m, Said(m.head, log, chunk.bytes), delivered + s.wrote) && s.m.head == m.head
      && (live && m.output == [] ==> s.m.output == [])
  {
    if m.head.hasBody && chunk.bytes != "" {
      WriteAdds(m, live, chunk);
      WireGrows(m.head, log, chunk.bytes);
      hide Write, Wire, Chunk;
      var s := Write(m, live, chunk);
      AddsHolds(m, log, delivered, live, s, if m.head.chunked then Chunk(chunk.bytes) else chunk.bytes,
                Said(m.head, log, chunk.bytes));
      assert s.m.(finished := false) == s.m;
    } else {
      assert delivered + "" == delivered;
    }
  }

  lemma WireEnds(head: Head, log: Log)
    requires !log.ended
    ensures Wire(head, log.(ended := true))
         == Wire(head, log) + (if log.body != [] then "" else head.text) + (if head.chunked then LastChunk(log.trailer) else "")
  {
    assert Chunks([]) == "" && Flat([]) == "";
  }

  lemma TailIs(m: Message, log: Log)
    requires m.trailer == Trailer(log.trailer)
    ensures Tail(m) == if m.head.chunked then LastChunk(log.trailer) else ""
  {
  }

  /** What is due and the tail are what the end adds to the wire form. */
  lemma EndGrows(m: Message, log: Log, delivered: Bytes)
    requires Holds(m, log, delivered) && !log.ended
    ensures Wire(m.head, log.(ended := true)) == Wire(m.head, log) + Due(m) + Tail(m)
    ensures NoneEmpty(log.body) && (!m.head.hasBody ==> log.body == []) && (!m.headerSent ==> m.output == [])
  {
    hide Wire, Pending, Tail, LastChunk, Trailer, NoneEmpty;
    WireEnds(m.head, log);
    TailIs(m, log);
  }

  lemma SendEndHolds(m: Message, log: Log, delivered: Bytes, live: bool)
    requires Holds(m, log, delivered) && !log.ended
    ensures var s := SendEnd(m, live);
      Holds(s.m, log.(ended := true), delivered + s.wrote) && (live ==> s.m.output == [])
  {
    hide Send, Wire, Adds, Holds;
    EndGrows(m, log, delivered);
    SendAdds(m, live, Text(Tail(m), None));
    var s := Send(m, live, Text(Tail(m), None));
    AddsHolds(m, log, delivered, live, s, Tail(m), log.(ended := true));
    AddsLive(m, live, s, Tail(m));
  }

  lemma AddsLive(m: Message, live: bool, s: Step, bytes: Bytes)
    requires Adds(m, live, s, bytes)
    ensures live ==> s.m.output == []
  {
  }

  /** However the data and the end of a message go out, they are the bytes the log stands for. */
  lemma EndHolds(m: Message, log: Log, delivered: Bytes, live: bool, data: Option<Data>)
    requires Holds(m, log, delivered)
    ensures var s := End(m, live, data);
      Holds(s.m, SaidLast(m.head, log, data), delivered + s.wrote) && (live && !log.ended ==> s.m.output == [])
  {
    if log.ended {
      assert delivered + "" == delivered;
    } else {
      var given := Given(m.head, data);
      if Hot(m, live, given) {
        HotPath(m, live, given);
      }
      EndGeneralHolds(m, log, delivered, live, given);
      GivenSays(m.head, log, data);
    }
  }

  lemma GivenSays(head: Head, log: Log, data: Option<Data>)
    requires !log.ended
    ensures SaidLast(head, log, data) == SaidLast(head, log, Given(head, data))
  {
  }

  lemma EndGeneralHolds(m: Message, log: Log, delivered: Bytes, live: bool, data: Option<Data>)
    requires Holds(m, log, delivered) && !log.ended
    ensures var s := EndGeneral(m, live, data);
      Holds(s.m, SaidLast(m.head, log, data), delivered + s.wrote) && (live ==> s.m.output == [])
  {
    hide Holds, Write, SendEnd;
    if data.None? {
      SendEndHolds(m, log, delivered, live);
      assert "" + SendEnd(m, live).wrote == SendEnd(m, live).wrote;
    } else {
      WriteHolds(m, log, delivered, live, data.value);
      var body, log' := Write(m, live, data.value), Said(m.head, log, data.value.bytes);
      SendEndHolds(body.m, log', delivered + body.wrote, live);
      Assoc(delivered, body.wrote, SendEnd(body.m, live).wrote);
    }
  }

  lemma FlushHolds(m: Message, log: Log, delivered: Bytes, writable: bool)
    requires Holds(m, log, delivered)
    ensures var s := Flush(m, writable); Holds(s.m, log, delivered + s.wrote)
  {
    assert delivered + "" == delivered;
    assert delivered + Pending(m.output) + Pending([]) == delivered + Pending(m.output);
  }

  /** A finished message that has delivered nothing still has everything pending. */
  lemma FinishedPends(m: Message, log: Log)
    requires Holds(m, log, "") && log.ended
    ensures m.output != [] && Pending(m.output) == Wire(m.head, log)
  {
    assert "" + Pending(m.output) == Pending(m.output);
  }

  /** write does not look whether the message has ended: it keeps the message true to its log just when it adds nothing. */
  lemma WriteAfterEnd(m: Message, log: Log, delivered: Bytes, live: bool, chunk: Data)
    requires Holds(m, log, delivered) && log.ended
    ensures var s := Write(m, live, chunk);
      Holds(s.m, log, delivered + s.wrote) <==> !m.head.hasBody || chunk.bytes == ""
  {
    if m.head.hasBody && chunk.bytes != "" {
      WriteAdds(m, live, chunk);
      hide Write, Wire, Chunk;
      var s := Write(m, live, chunk);
      assert |s.wrote| + |Pending(s.m.output)| > |Pending(m.output)| by {
        assert |s.wrote + Pending(s.m.output)| > |Pending(m.output)|;
      }
      assert |delivered + s.wrote + Pending(s.m.output)| > |delivered + Pending(m.output)|;
    } else {
      assert delivered + "" == delivered;
    }
  }
}
