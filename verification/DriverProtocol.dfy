/** The driver's wire protocol: a client's requests and a server's replies on one connection. */
module DriverProtocol {
  import opened Results
  import opened Framing
  import opened Text

  /** A request carries the id its client gave it; the name and the time in its header decide nothing. */
  datatype Request<D> = Request(id: nat, data: D)

  /** The header before the results of a request, or one of them. */
  datatype Reply<R> = Ack(id: nat, count: nat) | Result(value: R)

  /** What an operation returned: an array, or something else. */
  datatype Answer<R> = Many(results: seq<R>) | Single(result: R)

  function ResultsOf<R>(a: Answer<R>): seq<R> {
    match a
    case Many(results) => results
    case Single(result) => [result]
  }

  function AsReplies<R>(results: seq<R>): seq<Reply<R>> {
    if results == [] then [] else AsReplies(results[..|results| - 1]) + [Result(results[|results| - 1])]
  }

  function RepliesTo<R>(id: nat, a: Answer<R>): seq<Reply<R>> {
    [Ack(id, |ResultsOf(a)|)] + AsReplies(ResultsOf(a))
  }

  function Datas<D>(requests: seq<Request<D>>): seq<D> {
    if requests == [] then [] else Datas(requests[..|requests| - 1]) + [requests[|requests| - 1].data]
  }

  /** What the operations return to a request depends on it and on the requests before it. */
  function AnswerTo<D, R>(answer: seq<D> -> Answer<R>, requests: seq<Request<D>>): Answer<R> {
    answer(Datas(requests))
  }

  /** Everything the server writes. */
  function Written<D, R>(answer: seq<D> -> Answer<R>, requests: seq<Request<D>>): seq<Reply<R>> {
    if requests == [] then []
    else
      Written(answer, requests[..|requests| - 1])
      + RepliesTo(requests[|requests| - 1].id, AnswerTo(answer, requests))
  }

  /** A reply is a header or a result, and the client looks for a header first. */
  function ReplyCodec<R>(headers: Codec<(nat, nat)>, results: Codec<R>): Codec<Reply<R>> {
    Codec((reply: Reply<R>) => match reply
                               case Ack(id, count) => headers.stringify((id, count))
                               case Result(value) => results.stringify(value),
          (s: string) => match headers.parse(s)
                         case Some(header) => Some(Ack(header.0, header.1))
                         case None =>
                           match results.parse(s)
                           case Some(value) => Some(Result(value))
                           case None => None)
  }

  /** Replies are told apart if and only if no result has the property by which the client knows a header. */
  lemma ReplyCodecSound<R(!new)>(headers: Codec<(nat, nat)>, results: Codec<R>)
    requires Sound(headers) && Sound(results)
    ensures Sound(ReplyCodec(headers, results)) <==> forall value :: headers.parse(results.stringify(value)) == None
  {
    var c := ReplyCodec(headers, results);
    if forall value :: headers.parse(results.stringify(value)) == None {
      forall m ensures ObjectText(c.stringify(m)) && c.parse(c.stringify(m)) == Some(m) {
        match m
        case Ack(id, count) => assert headers.parse(headers.stringify((id, count))) == Some((id, count));
        case Result(value) => assert headers.parse(results.stringify(value)) == None;
      }
    } else {
      var value :| headers.parse(results.stringify(value)) != None;
      assert c.parse(c.stringify(Result(value))) != Some(Result(value));
    }
  }

  function HeaderText(header: (nat, nat)): string {
    "{" + (Decimal(header.0) + [':'] + Decimal(header.1)) + "}"
  }

  function NumberText(n: nat): string {
    "{" + Decimal(n) + "}"
  }

  lemma HeaderBody(header: (nat, nat))
    ensures ObjectText(HeaderText(header))
    ensures Split(HeaderText(header)[1..|HeaderText(header)| - 1], ':') == [Decimal(header.0), Decimal(header.1)]
  {
    var body := Decimal(header.0) + [':'] + Decimal(header.1);
    PlainObject(body);
    assert HeaderText(header)[1..|HeaderText(header)| - 1] == body;
    SplitConcat(Decimal(header.0), ':', Decimal(header.1));
    SplitNone(Decimal(header.0), ':');
    SplitNone(Decimal(header.1), ':');
  }

  lemma NumberBody(n: nat)
    ensures ObjectText(NumberText(n)) && Split(NumberText(n)[1..|NumberText(n)| - 1], ':') == [Decimal(n)]
  {
    PlainObject(Decimal(n));
    assert NumberText(n)[1..|NumberText(n)| - 1] == Decimal(n);
    SplitNone(Decimal(n), ':');
  }

  /** There are codecs that tell replies apart, here with numbers for results. */
  lemma SomeRepliesSound()
    ensures Sound(ReplyCodec(Printed(HeaderText), Printed(NumberText)))
  {
    forall header: (nat, nat) ensures ObjectText(HeaderText(header)) {
      HeaderBody(header);
    }
    forall a: (nat, nat), b: (nat, nat) | HeaderText(a) == HeaderText(b) ensures a == b {
      HeadersDiffer(a, b);
    }
    forall n: nat ensures ObjectText(NumberText(n)) {
      NumberBody(n);
    }
    forall a: nat, b: nat | NumberText(a) == NumberText(b) ensures a == b {
      NumberBody(a);
      NumberBody(b);
      DecimalsDiffer(a, b);
    }
    PrintedSound(HeaderText);
    PrintedSound(NumberText);
    forall n: nat ensures Printed(HeaderText).parse(Printed(NumberText).stringify(n)) == None {
      NumberIsNoHeader(n);
    }
    ReplyCodecSound(Printed(HeaderText), Printed(NumberText));
  }

  lemma HeadersDiffer(a: (nat, nat), b: (nat, nat))
    requires HeaderText(a) == HeaderText(b)
    ensures a == b
  {
    hide HeaderText, Decimal;
    HeaderBody(a);
    HeaderBody(b);
    var parts := [Decimal(a.0), Decimal(a.1)];
    assert parts == [Decimal(b.0), Decimal(b.1)];
    assert parts[0] == Decimal(b.0) && parts[1] == Decimal(b.1);
    DecimalsDiffer(a.0, b.0);
    DecimalsDiffer(a.1, b.1);
  }

  lemma NumberIsNoHeader(n: nat)
    ensures forall header: (nat, nat) :: HeaderText(header) != NumberText(n)
  {
    forall header: (nat, nat) ensures HeaderText(header) != NumberText(n) {
      HeaderBody(header);
      NumberBody(n);
    }
  }

  // ---------- the client ----------

  datatype Mode = Batch | Stream

  /** dataCallbacks[id] was called with these results. */
  datatype Called<R> = Called(id: nat, results: seq<R>)

  datatype Routing<R> = Routing(size: nat, counter: nat, id: nat, batch: seq<R>, calls: seq<Called<R>>)

  function Start<R>(): Routing<R> {
    Routing(0, 0, 0, [], [])
  }

  function Route<R>(mode: Mode, s: Routing<R>, reply: Reply<R>): Routing<R> {
    match reply
    case Ack(id, count) => Routing(count, 0, id, [], if count == 0 then s.calls + [Called(id, [])] else s.calls)
    case Result(value) =>
      var s1 := s.(counter := s.counter + 1);
      if mode.Stream? then s1.(calls := s.calls + [Called(s.id, [value])])
      else
        var s2 := s1.(batch := s.batch + [value]);
        if s2.counter == s.size then s2.(calls := s.calls + [Called(s.id, s2.batch)]) else s2
  }

  function Routed<R>(mode: Mode, replies: seq<Reply<R>>): Routing<R> {
    if replies == [] then Start() else Route(mode, Routed(mode, replies[..|replies| - 1]), replies[|replies| - 1])
  }

  // ---------- what each callback is to get ----------

  function Each<R>(id: nat, results: seq<R>): seq<Called<R>> {
    if results == [] then [] else Each(id, results[..|results| - 1]) + [Called(id, [results[|results| - 1]])]
  }

  /** The calls for one request: one with all its results, or one for each of them; and one in any case. */
  function CallsFor<R>(mode: Mode, id: nat, results: seq<R>): seq<Called<R>> {
    if mode.Batch? || results == [] then [Called(id, results)] else Each(id, results)
  }

  function AllCalls<D, R>(mode: Mode, answer: seq<D> -> Answer<R>, requests: seq<Request<D>>): seq<Called<R>> {
    if requests == [] then []
    else
      AllCalls(mode, answer, requests[..|requests| - 1])
      + CallsFor(mode, requests[|requests| - 1].id, ResultsOf(AnswerTo(answer, requests)))
  }

  lemma RoutedMore<R>(mode: Mode, replies: seq<Reply<R>>, reply: Reply<R>)
    ensures Routed(mode, replies + [reply]) == Route(mode, Routed(mode, replies), reply)
  {
    assert (replies + [reply])[..|replies|] == replies;
  }

  /** The calls for the first n of the results. */
  function CallsAfter<R>(mode: Mode, id: nat, results: seq<R>, n: nat): seq<Called<R>>
    requires n <= |results|
  {
    if mode.Stream? && results != [] then Each(id, results[..n]) else if n == |results| then [Called(id, results)] else []
  }

  /** The client after the header of a request's results and the first n of them. */
  predicate Progress<R(==)>(mode: Mode, s: Routing<R>, calls: seq<Called<R>>, id: nat, results: seq<R>, n: nat) {
    && n <= |results| && s.size == |results| && s.counter == n && s.id == id && (mode.Batch? ==> s.batch == results[..n])
    && s.calls == calls + CallsAfter(mode, id, results, n)
  }

  lemma ProgressStarts<R>(mode: Mode, s: Routing<R>, id: nat, results: seq<R>)
    ensures Progress(mode, Route(mode, s, Ack(id, |results|)), s.calls, id, results, 0)
  {
    assert results[..0] == [] && s.calls + [] == s.calls;
  }

  lemma ProgressGoesOn<R>(mode: Mode, s: Routing<R>, calls: seq<Called<R>>, id: nat, results: seq<R>, n: nat)
    requires n < |results| && Progress(mode, s, calls, id, results, n)
    ensures Progress(mode, Route(mode, s, Result(results[n])), calls, id, results, n + 1)
  {
    var last := results[n];
    assert results[..n + 1] == results[..n] + [last] && results[..n + 1][..n] == results[..n] && results[..|results|] == results;
    if mode.Stream? {
      assert calls + Each(id, results[..n]) + [Called(id, [last])] == calls + (Each(id, results[..n]) + [Called(id, [last])]);
    } else {
      assert calls + [] == calls;
    }
  }

  lemma {:induction false} RoutedResults<R>(mode: Mode, before: seq<Reply<R>>, id: nat, results: seq<R>, n: nat)
    requires n <= |results|
    ensures Progress(mode, Routed(mode, before + [Ack(id, |results|)] + AsReplies(results[..n])),
                     Routed(mode, before).calls, id, results, n)
  {
    hide Progress, Route;
    var header := before + [Ack(id, |results|)];
    if n == 0 {
      RoutedMore(mode, before, Ack(id, |results|));
      ProgressStarts(mode, Routed(mode, before), id, results);
      assert results[..0] == [] && header + [] == header;
    } else {
      RoutedResults(mode, before, id, results, n - 1);
      var last, sofar := results[n - 1], AsReplies(results[..n - 1]);
      assert results[..n][..n - 1] == results[..n - 1];
      assert header + (sofar + [Result(last)]) == header + sofar + [Result(last)];
      RoutedMore(mode, header + sofar, Result(last));
      ProgressGoesOn(mode, Routed(mode, header + sofar), Routed(mode, before).calls, id, results, n - 1);
    }
  }

  lemma ProgressEnds<R>(mode: Mode, s: Routing<R>, calls: seq<Called<R>>, id: nat, results: seq<R>)
    requires Progress(mode, s, calls, id, results, |results|)
    ensures s.calls == calls + CallsFor(mode, id, results)
  {
    assert results[..|results|] == results;
  }

  /** What the server writes makes every callback be called with its own request's results, in order. */
  lemma {:induction false} RoutedWritten<D, R>(mode: Mode, answer: seq<D> -> Answer<R>, requests: seq<Request<D>>)
    ensures Routed(mode, Written(answer, requests)).calls == AllCalls(mode, answer, requests)
  {
    hide Progress, Routed, CallsFor, AnswerTo;
    if requests == [] {
      RoutedNone<R>(mode);
    } else {
      var front, last := requests[..|requests| - 1], requests[|requests| - 1];
      var results := ResultsOf(AnswerTo(answer, requests));
      RoutedWritten(mode, answer, front);
      RoutedResults(mode, Written(answer, front), last.id, results, |results|);
      assert results[..|results|] == results;
      var s := Written(answer, front) + [Ack(last.id, |results|)] + AsReplies(results);
      assert s == Written(answer, front) + ([Ack(last.id, |results|)] + AsReplies(results));
      ProgressEnds(mode, Routed(mode, s), Routed(mode, Written(answer, front)).calls, last.id, results);
    }
  }

  lemma RoutedNone<R>(mode: Mode)
    ensures Routed<R>(mode, []).calls == []
  {
  }

  lemma {:induction false} CallsGrow<R>(mode: Mode, replies: seq<Reply<R>>, n: nat)
    requires n <= |replies|
    ensures Routed(mode, replies[..n]).calls <= Routed(mode, replies).calls
    decreases |replies|
  {
    if n == |replies| {
      assert replies[..n] == replies;
    } else {
      var front := replies[..|replies| - 1];
      assert front[..n] == replies[..n];
      CallsGrow(mode, front, n);
    }
  }

  lemma {:induction false} WrittenGrows<D, R>(answer: seq<D> -> Answer<R>, requests: seq<Request<D>>, n: nat)
    requires n <= |requests|
    ensures Written(answer, requests[..n]) <= Written(answer, requests)
    decreases |requests|
  {
    if n == |requests| {
      assert requests[..n] == requests;
    } else {
      var front := requests[..|requests| - 1];
      assert front[..n] == requests[..n];
      WrittenGrows(answer, front, n);
    }
  }

  // ---------- the connection ----------

  /** One direction of the connection: what was written, how much of it has arrived, and what its reader made of that. */
  datatype Direction<!T> = Direction(codec: Codec<T>, msgs: seq<T>, received: string, reader: Reader<T>)

  /** The next n characters arrive, or as many as there are. */
  function Deliver<T>(d: Direction<T>, n: nat): Direction<T>
    requires d.received <= Lines(d.codec, d.msgs)
  {
    var left := Lines(d.codec, d.msgs)[|d.received|..];
    var chunk := left[..if n < |left| then n else |left|];
    d.(received := d.received + chunk, reader := Feed(d.codec, d.reader, chunk))
  }

  /** The reader is p into message k. */
  predicate FlowingAt<T(==)>(d: Direction<T>, k: nat, p: string) {
    && k <= |d.msgs| && (if k < |d.msgs| then p <= d.codec.stringify(d.msgs[k]) else p == "")
    && d.received == Lines(d.codec, d.msgs[..k]) + p && d.reader == Expected(d.codec, d.msgs, k, p)
  }

  ghost predicate Flowing<T>(d: Direction<T>) {
    exists k: nat, p: string :: FlowingAt(d, k, p)
  }

  lemma FlowingRest<T>(d: Direction<T>, k: nat, p: string)
    requires FlowingAt(d, k, p)
    ensures d.received <= Lines(d.codec, d.msgs)
    ensures p + Lines(d.codec, d.msgs)[|d.received|..] == Lines(d.codec, d.msgs[k..])
  {
    LinesAppend(d.codec, d.msgs[..k], d.msgs[k..]);
    assert d.msgs[..k] + d.msgs[k..] == d.msgs;
    var before, after := Lines(d.codec, d.msgs[..k]), Lines(d.codec, d.msgs[k..]);
    if k < |d.msgs| {
      LinesMore(d.codec, d.msgs, k);
      assert p <= after;
    } else {
      assert d.msgs[k..] == [];
    }
    assert before + after == before + p + after[|p|..];
  }

  lemma NoLines<T>(c: Codec<T>)
    ensures Lines(c, []) == ""
  {
  }

  lemma DeliverFlows<T(!new)>(d: Direction<T>, n: nat)
    requires Sound(d.codec) && Flowing(d) && d.received <= Lines(d.codec, d.msgs)
    ensures Flowing(Deliver(d, n))
  {
    hide Lines, Feed, FeedPieces, Sound;
    var k: nat, p: string :| FlowingAt(d, k, p);
    FlowingRest(d, k, p);
    var left := Lines(d.codec, d.msgs)[|d.received|..];
    var chunk := left[..if n < |left| then n else |left|];
    assert p + chunk <= Lines(d.codec, d.msgs[k..]) by {
      assert p + chunk == (p + left)[..|p + chunk|];
    }
    if k == |d.msgs| {
      assert d.msgs[k..] == [];
      NoLines(d.codec);
    }
    var k', p' := FeedValid(d.codec, d.msgs, k, p, chunk);
    assert FlowingAt(Deliver(d, n), k', p');
  }

  /** Writing more does not disturb the reader. */
  lemma WriteFlows<T(!new)>(d: Direction<T>, more: seq<T>)
    requires Sound(d.codec) && Flowing(d)
    ensures Flowing(d.(msgs := d.msgs + more))
  {
    var k: nat, p: string :| FlowingAt(d, k, p);
    var d' := d.(msgs := d.msgs + more);
    assert d'.msgs[..k] == d.msgs[..k];
    if k < |d.msgs| {
      assert d'.msgs[..k + 1] == d.msgs[..k + 1];
    } else if more != [] {
      assert ObjectText(d.codec.stringify(d'.msgs[k]));
    }
    assert FlowingAt(d', k, p);
  }

  /** What was handled is the beginning of what was written, and all of it once all has arrived. */
  lemma HandledInOrder<T>(d: Direction<T>)
    requires Flowing(d)
    ensures d.reader.handled <= d.msgs && d.received <= Lines(d.codec, d.msgs)
    ensures d.received == Lines(d.codec, d.msgs) ==> d.reader.handled == d.msgs
  {
    var k: nat, p: string :| FlowingAt(d, k, p);
    FlowingRest(d, k, p);
    if k < |d.msgs| {
      LinesMore(d.codec, d.msgs, k);
    } else {
      assert d.msgs[..k] == d.msgs;
    }
  }

  /** A client and its server. */
  datatype Link<!D, !R> = Link(mode: Mode, answer: seq<D> -> Answer<R>, up: Direction<Request<D>>, down: Direction<Reply<R>>)

  datatype Event<D> = Send(data: D) | Up(n: nat) | Down(n: nat)

  ghost predicate Inv<D(!new), R(!new)>(l: Link<D, R>) {
    && Sound(l.up.codec) && Sound(l.down.codec) && Flowing(l.up) && Flowing(l.down)
    && l.up.received <= Lines(l.up.codec, l.up.msgs) && l.down.received <= Lines(l.down.codec, l.down.msgs)
    && l.down.msgs == Written(l.answer, l.up.reader.handled)
    && (forall i :: 0 <= i < |l.up.msgs| ==> l.up.msgs[i].id == i)
  }

  /** A request is sent, with the next id; or a chunk arrives at the server, which answers the requests in it; or at the client. */
  ghost function Next<D(!new), R(!new)>(l: Link<D, R>, e: Event<D>): Link<D, R>
    requires Inv(l)
  {
    match e
    case Send(data) => l.(up := l.up.(msgs := l.up.msgs + [Request(|l.up.msgs|, data)]))
    case Up(n) =>
      var up := Deliver(l.up, n);
      l.(up := up, down := l.down.(msgs := Written(l.answer, up.reader.handled)))
    case Down(n) => l.(down := Deliver(l.down, n))
  }

  function Opened<D, R>(mode: Mode, answer: seq<D> -> Answer<R>, up: Codec<Request<D>>, down: Codec<Reply<R>>): Link<D, R> {
    Link(mode, answer, Direction(up, [], "", Reader("", [])), Direction(down, [], "", Reader("", [])))
  }

  lemma OpenedInv<D(!new), R(!new)>(mode: Mode, answer: seq<D> -> Answer<R>, up: Codec<Request<D>>, down: Codec<Reply<R>>)
    requires Sound(up) && Sound(down)
    ensures Inv(Opened(mode, answer, up, down))
  {
    var l := Opened(mode, answer, up, down);
    assert FlowingAt(l.up, 0, "") && FlowingAt(l.down, 0, "");
  }

  /** What has arrived grows, and so does what was handled. */
  lemma DeliverGrows<T(!new)>(d: Direction<T>, n: nat)
    requires d.received <= Lines(d.codec, d.msgs)
    ensures d.reader.handled <= Deliver(d, n).reader.handled
  {
    var left := Lines(d.codec, d.msgs)[|d.received|..];
    var chunk := left[..if n < |left| then n else |left|];
    FeedGrows(d.codec, d.reader, Pieces(d.reader.partial, chunk));
  }

  lemma {:induction false} FeedGrows<T>(c: Codec<T>, r: Reader<T>, pieces: seq<string>)
    ensures r.handled <= FeedPieces(c, r, pieces).handled
    decreases |pieces|
  {
    if pieces != [] {
      FeedGrows(c, FeedPiece(c, r, pieces[0]), pieces[1..]);
    }
  }

  /** The server answers more requests. */
  lemma AnsweredMore<D, R(!new)>(answer: seq<D> -> Answer<R>, down: Direction<Reply<R>>,
                                 before: seq<Request<D>>, after: seq<Request<D>>)
    requires Sound(down.codec) && Flowing(down) && down.msgs == Written(answer, before) && before <= after
    ensures var down' := down.(msgs := Written(answer, after));
      Flowing(down') && down'.received <= Lines(down'.codec, down'.msgs)
  {
    hide Written, Lines, Flowing, Sound;
    assert after[..|before|] == before;
    WrittenGrows(answer, after, |before|);
    var more := Written(answer, after)[|down.msgs|..];
    assert Written(answer, after) == down.msgs + more;
    WriteFlows(down, more);
    HandledInOrder(down.(msgs := down.msgs + more));
  }

  lemma NextInv<D(!new), R(!new)>(l: Link<D, R>, e: Event<D>)
    requires Inv(l)
    ensures Inv(Next(l, e))
  {
    hide Sound, Flowing, Lines, Written, Feed;
    match e
    case Send(data) =>
      WriteFlows(l.up, [Request(|l.up.msgs|, data)]);
      HandledInOrder(l.up.(msgs := l.up.msgs + [Request(|l.up.msgs|, data)]));
    case Up(n) =>
      DeliverFlows(l.up, n);
      HandledInOrder(Deliver(l.up, n));
      DeliverGrows(l.up, n);
      AnsweredMore(l.answer, l.down, l.up.reader.handled, Deliver(l.up, n).reader.handled);
    case Down(n) =>
      DeliverFlows(l.down, n);
      HandledInOrder(Deliver(l.down, n));
  }

  ghost predicate Reaches<D(!new), R(!new)>(l: Link<D, R>, events: seq<Event<D>>, end: Link<D, R>)
    requires Inv(l)
    decreases |events|
  {
    if events == [] then end == l else NextInv(l, events[0]); Reaches(Next(l, events[0]), events[1..], end)
  }

  /** Every callback of the client is called by what has arrived. */
  function Calls<D, R>(l: Link<D, R>): seq<Called<R>> {
    Routed(l.mode, l.down.reader.handled).calls
  }

  lemma {:induction false} AllCallsGrow<D, R>(mode: Mode, answer: seq<D> -> Answer<R>, requests: seq<Request<D>>, n: nat)
    requires n <= |requests|
    ensures AllCalls(mode, answer, requests[..n]) <= AllCalls(mode, answer, requests)
    decreases |requests|
  {
    if n == |requests| {
      assert requests[..n] == requests;
    } else {
      var front := requests[..|requests| - 1];
      assert front[..n] == requests[..n];
      AllCallsGrow(mode, answer, front, n);
    }
  }

  lemma CallsOf<D(!new), R(!new)>(l: Link<D, R>)
    requires Inv(l)
    ensures Calls(l) <= AllCalls(l.mode, l.answer, l.up.msgs)
    ensures l.up.received == Lines(l.up.codec, l.up.msgs) && l.down.received == Lines(l.down.codec, l.down.msgs)
            ==> Calls(l) == AllCalls(l.mode, l.answer, l.up.msgs)
  {
    HandledInOrder(l.up);
    HandledInOrder(l.down);
    var requests, replies := l.up.reader.handled, l.down.reader.handled;
    RoutedWritten(l.mode, l.answer, requests);
    assert l.down.msgs[..|replies|] == replies && l.up.msgs[..|requests|] == requests;
    CallsGrow(l.mode, l.down.msgs, |replies|);
    AllCallsGrow(l.mode, l.answer, l.up.msgs, |requests|);
    PrefixTrans(Calls(l), AllCalls(l.mode, l.answer, requests), AllCalls(l.mode, l.answer, l.up.msgs));
  }

  lemma PrefixTrans<T>(a: seq<T>, b: seq<T>, c: seq<T>)
    requires a <= b && b <= c
    ensures a <= c
  {
  }

  /**
   * However requests, chunks to the server and chunks to the client alternate: the callbacks called so far are, in order, the
   * first of those due, each with the results of its own request; and all of them, once everything has arrived.
   */
  lemma {:induction false} RunCalls<D(!new), R(!new)>(l: Link<D, R>, events: seq<Event<D>>, end: Link<D, R>)
    requires Inv(l) && Reaches(l, events, end)
    ensures Inv(end) && Calls(end) <= AllCalls(end.mode, end.answer, end.up.msgs)
    ensures end.up.received == Lines(end.up.codec, end.up.msgs) && end.down.received == Lines(end.down.codec, end.down.msgs)
            ==> Calls(end) == AllCalls(end.mode, end.answer, end.up.msgs)
    decreases |events|
  {
    if events == [] {
      CallsOf(l);
    } else {
      NextInv(l, events[0]);
      RunCalls(Next(l, events[0]), events[1..], end);
    }
  }

  // ---------- which calls these are ----------

  /** The data of the first requests. */
  predicate FirstDatas<D(==)>(requests: seq<Request<D>>, datas: seq<D>) {
    |datas| <= |requests| && forall i :: 0 <= i < |datas| ==> datas[i] == requests[i].data
  }

  lemma {:induction false} DatasAre<D>(requests: seq<Request<D>>, datas: seq<D>)
    requires FirstDatas(requests, datas)
    ensures Datas(requests[..|datas|]) == datas
    decreases |datas|
  {
    if datas != [] {
      var front := datas[..|datas| - 1];
      DatasAre(requests, front);
      assert requests[..|datas|][..|datas| - 1] == requests[..|front|];
    }
  }

  lemma {:induction false} EachAt<R>(id: nat, results: seq<R>, i: nat)
    requires i < |results|
    ensures |Each(id, results)| == |results| && Each(id, results)[i] == Called(id, [results[i]])
  {
    if i < |results| - 1 {
      EachAt(id, results[..|results| - 1], i);
    } else if |results| > 1 {
      EachAt(id, results[..|results| - 1], 0);
    }
  }

  /** How many calls an answer makes: one in batch mode, and in stream mode one for each result, but one in any case. */
  function Share<R>(mode: Mode, a: Answer<R>): nat {
    if mode.Stream? && a.Many? && a.results != [] then |a.results| else 1
  }

  /** How many calls are made for the first k requests. */
  function Earlier<D, R>(mode: Mode, answer: seq<D> -> Answer<R>, requests: seq<Request<D>>, k: nat): nat
    requires k <= |requests|
  {
    if k == 0 then 0 else Earlier(mode, answer, requests, k - 1) + Share(mode, answer(Datas(requests[..k])))
  }

  /** Call i for a request whose answer is a: an array goes to it whole, or one result at a time, anything else as one result. */
  function CallOf<R>(mode: Mode, id: nat, a: Answer<R>, i: nat): Called<R>
    requires i < Share(mode, a)
  {
    if a.Single? then Called(id, [a.result])
    else if mode.Batch? || a.results == [] then Called(id, a.results)
    else Called(id, [a.results[i]])
  }

  lemma CallsForAt<R>(mode: Mode, id: nat, a: Answer<R>, i: nat)
    requires i < Share(mode, a)
    ensures var calls := CallsFor(mode, id, ResultsOf(a)); |calls| == Share(mode, a) && calls[i] == CallOf(mode, id, a, i)
  {
    if a.Many? && mode.Stream? && a.results != [] {
      EachAt(id, a.results, i);
    } else if a.Single? {
      assert ResultsOf(a) == [a.result];
      EachAt(id, [a.result], 0);
    }
  }

  lemma {:induction false} EarlierIsSize<D, R>(mode: Mode, answer: seq<D> -> Answer<R>, requests: seq<Request<D>>, k: nat)
    requires k <= |requests|
    ensures |AllCalls(mode, answer, requests[..k])| == Earlier(mode, answer, requests, k)
  {
    hide CallsFor, Datas, ResultsOf;
    if k > 0 {
      EarlierIsSize(mode, answer, requests, k - 1);
      assert requests[..k][..k - 1] == requests[..k - 1];
      CallsForAt(mode, requests[k - 1].id, AnswerTo(answer, requests[..k]), 0);
    }
  }

  /** Which call is which: call i for request k comes after those for the requests before it. */
  lemma CallAt<D, R>(mode: Mode, answer: seq<D> -> Answer<R>, requests: seq<Request<D>>, datas: seq<D>, i: nat)
    requires FirstDatas(requests, datas) && datas != [] && i < Share(mode, answer(datas))
    ensures var k := |datas| - 1; var calls, at := AllCalls(mode, answer, requests), Earlier(mode, answer, requests, k) + i;
      at < |calls| && calls[at] == CallOf(mode, requests[k].id, answer(datas), i)
  {
    hide CallsFor, CallOf, Share, ResultsOf;
    var k := |datas| - 1;
    DatasAre(requests, datas);
    EarlierIsSize(mode, answer, requests, k);
    assert requests[..k + 1][..k] == requests[..k];
    CallsForAt(mode, requests[k].id, answer(datas), i);
    AllCallsGrow(mode, answer, requests, k + 1);
  }

  lemma RequestIds<D(!new), R(!new)>(l: Link<D, R>, k: nat)
    requires Inv(l) && k < |l.up.msgs|
    ensures l.up.msgs[k].id == k
  {
  }

  lemma PrefixAt<T>(a: seq<T>, b: seq<T>, i: nat)
    requires a <= b && i < |a|
    ensures i < |b| && a[i] == b[i]
  {
  }

  lemma RunCallAt<D(!new), R(!new)>(l: Link<D, R>, events: seq<Event<D>>, end: Link<D, R>, datas: seq<D>, i: nat)
    requires Inv(l) && Reaches(l, events, end) && FirstDatas(end.up.msgs, datas) && datas != [] && i < Share(end.mode, end.answer(datas))
    ensures var k := |datas| - 1; var at := Earlier(end.mode, end.answer, end.up.msgs, k) + i;
      at < |Calls(end)| ==> Calls(end)[at] == CallOf(end.mode, k, end.answer(datas), i)
  {
    hide Calls, AllCalls, Inv, Reaches, CallOf, Share, Earlier;
    var k := |datas| - 1;
    RunCalls(l, events, end);
    RequestIds(end, k);
    CallAt(end.mode, end.answer, end.up.msgs, datas, i);
    var at := Earlier(end.mode, end.answer, end.up.msgs, k) + i;
    if at < |Calls(end)| {
      PrefixAt(Calls(end), AllCalls(end.mode, end.answer, end.up.msgs), at);
    }
  }

  lemma {:induction false} EarlierInBatch<D, R>(answer: seq<D> -> Answer<R>, requests: seq<Request<D>>, k: nat)
    requires k <= |requests|
    ensures Earlier(Batch, answer, requests, k) == k
  {
    if k > 0 {
      EarlierInBatch(answer, requests, k - 1);
    }
  }

  /**
   * What RunCalls says of each callback. In batch mode request k's is called as the k-th, with the array that the operations
   * returned to it, or with the one result.
   */
  lemma BatchRun<D(!new), R(!new)>(l: Link<D, R>, events: seq<Event<D>>, end: Link<D, R>, datas: seq<D>)
    requires Inv(l) && Reaches(l, events, end) && end.mode == Batch && FirstDatas(end.up.msgs, datas) && datas != []
    ensures var k, a := |datas| - 1, end.answer(datas);
      k < |Calls(end)| ==> Calls(end)[k] == if a.Many? then Called(k, a.results) else Called(k, [a.result])
  {
    hide Calls, Inv, Reaches, Earlier;
    RunCallAt(l, events, end, datas, 0);
    EarlierInBatch(end.answer, end.up.msgs, |datas| - 1);
  }

  /** And every request's is, once everything has arrived. */
  lemma BatchAll<D(!new), R(!new)>(l: Link<D, R>, events: seq<Event<D>>, end: Link<D, R>)
    requires Inv(l) && Reaches(l, events, end) && end.mode == Batch
    requires end.up.received == Lines(end.up.codec, end.up.msgs) && end.down.received == Lines(end.down.codec, end.down.msgs)
    ensures |Calls(end)| == |end.up.msgs|
  {
    hide Calls, Inv, Reaches, Earlier, AllCalls;
    RunCalls(l, events, end);
    EarlierInBatch(end.answer, end.up.msgs, |end.up.msgs|);
    EarlierIsSize(Batch, end.answer, end.up.msgs, |end.up.msgs|);
    assert end.up.msgs[..|end.up.msgs|] == end.up.msgs;
  }

  /**
   * In stream mode it is called once for each of the results, in order, after those of the requests before; once with nothing if
   * there is none; and once if the operation did not return an array.
   */
  lemma StreamRun<D(!new), R(!new)>(l: Link<D, R>, events: seq<Event<D>>, end: Link<D, R>, datas: seq<D>, i: nat)
    requires Inv(l) && Reaches(l, events, end) && end.mode == Stream && FirstDatas(end.up.msgs, datas) && datas != []
    requires var a := end.answer(datas); if a.Many? && a.results != [] then i < |a.results| else i == 0
    ensures var k, a := |datas| - 1, end.answer(datas);
      var at := Earlier(Stream, end.answer, end.up.msgs, k) + i;
      at < |Calls(end)| ==>
        Calls(end)[at] == if a.Single? then Called(k, [a.result]) else if a.results == [] then Called(k, []) else Called(k, [a.results[i]])
  {
    hide Calls, Inv, Reaches, Earlier;
    RunCallAt(l, events, end, datas, i);
  }
}
