/** What a client reads off a connection, told by the calls of the handlers alone. */
module HandlerCalls {
  import opened Results
  import opened Chunked
  import opened OutgoingSpec
  import opened PipelineSpec

  // ---------- what was asked for, and what was called ----------

  /** What the responses' headers say, in the order of the requests. */
  function Heads(events: seq<Event>): seq<Head> {
    if events == [] then []
    else
      match events[0]
      case Request(head) => [head] + Heads(events[1..])
      case Use(_, _) => Heads(events[1..])
  }

  /** The calls on response k; n requests have come in before these events. */
  function CallsOn(events: seq<Event>, n: nat, k: nat): seq<Call> {
    if events == [] then []
    else
      match events[0]
      case Request(_) => CallsOn(events[1..], n + 1, k)
      case Use(i, call) => if i == k < n then [call] + CallsOn(events[1..], n, k) else CallsOn(events[1..], n, k)
  }

  /** The bytes written until the response is ended, the data passed to end included. */
  function BodyOf(calls: seq<Call>): Bytes {
    if calls == [] then ""
    else
      match calls[0]
      case WriteCall(chunk) => chunk.bytes + BodyOf(calls[1..])
      case TrailersCall(_) => BodyOf(calls[1..])
      case EndCall(data) => if data.Some? then data.value.bytes else ""
  }

  /** The trailers given last before the response is ended. */
  function TrailersOf(calls: seq<Call>, given: seq<Field>): seq<Field> {
    if calls == [] then given
    else
      match calls[0]
      case WriteCall(_) => TrailersOf(calls[1..], given)
      case TrailersCall(fields) => TrailersOf(calls[1..], fields)
      case EndCall(_) => given
  }

  predicate Over(calls: seq<Call>) {
    exists i :: 0 <= i < |calls| && calls[i].EndCall?
  }

  // ---------- the log of a response holds what its calls gave it ----------

  function NotedAll(head: Head, log: Log, calls: seq<Call>): Log
    decreases |calls|
  {
    if calls == [] then log else NotedAll(head, Noted(head, log, calls[0]), calls[1..])
  }

  lemma FlatMore(body: seq<Bytes>, data: Bytes)
    ensures Flat(body + [data]) == Flat(body) + data
  {
    FlatAppend(body, [data]);
    assert [data][1..] == [] && Flat([]) == "";
    assert data + "" == data;
  }

  /** One call: a write adds its bytes, trailers replace those before, end adds its data and is the last to change anything. */
  lemma NotedIs(head: Head, log: Log, call: Call)
    requires !head.hasBody ==> log.body == []
    ensures var l := Noted(head, log, call);
      && (!head.hasBody ==> l.body == []) && (log.ended ==> l == log)
      && (!log.ended ==> l.ended == call.EndCall?)
      && (!log.ended ==> l.trailer == if call.TrailersCall? then call.fields else log.trailer)
      && (!log.ended && head.hasBody ==> Flat(l.body) == Flat(log.body) + BodyOf([call]))
  {
    hide Flat;
    assert [call][1..] == [];
    assert BodyOf([]) == "";
    var data := if call.WriteCall? then call.chunk.bytes else if call.EndCall? && call.data.Some? then call.data.value.bytes else "";
    assert data + "" == data;
    assert BodyOf([call]) == data;
    FlatMore(log.body, data);
    assert Flat(log.body) + "" == Flat(log.body);
  }

  lemma BodyStep(calls: seq<Call>)
    requires calls != []
    ensures BodyOf(calls) == if calls[0].EndCall? then BodyOf([calls[0]]) else BodyOf([calls[0]]) + BodyOf(calls[1..])
  {
    var call := calls[0];
    assert [call][1..] == [];
    assert BodyOf([]) == "";
    if call.WriteCall? {
      assert call.chunk.bytes + "" == call.chunk.bytes;
    } else if call.TrailersCall? {
      assert "" + BodyOf(calls[1..]) == BodyOf(calls[1..]);
    }
  }

  lemma OverStep(calls: seq<Call>)
    requires calls != []
    ensures Over(calls) <==> calls[0].EndCall? || Over(calls[1..])
  {
    if i :| 0 <= i < |calls| && calls[i].EndCall? {
      assert i > 0 ==> calls[1..][i - 1].EndCall?;
    }
    if j :| 0 <= j < |calls| - 1 && calls[1..][j].EndCall? {
      assert calls[j + 1].EndCall?;
    }
  }

  lemma {:induction false} NotedAllIs(head: Head, log: Log, calls: seq<Call>)
    requires !head.hasBody ==> log.body == []
    ensures var l := NotedAll(head, log, calls);
      && (log.ended ==> l == log)
      && (!log.ended ==> l.ended == Over(calls) && l.trailer == TrailersOf(calls, log.trailer))
      && (!log.ended ==> Flat(l.body) == Flat(log.body) + if head.hasBody then BodyOf(calls) else "")
    decreases |calls|
  {
    hide Flat, Noted, Over, BodyOf;
    if calls == [] {
      NoCalls(log);
    } else {
      var next := Noted(head, log, calls[0]);
      NotedIs(head, log, calls[0]);
      BodyStep(calls);
      OverStep(calls);
      NotedAllIs(head, next, calls[1..]);
      Assoc(Flat(log.body), BodyOf([calls[0]]), BodyOf(calls[1..]));
      assert Flat(log.body) + "" == Flat(log.body);
    }
  }

  lemma NoCalls(log: Log)
    ensures !Over([]) && Flat(log.body) + "" == Flat(log.body) && BodyOf([]) == ""
  {
  }

  // ---------- a run ----------

  lemma RequestLogs(s: State, head: Head)
    requires WellFormed(s)
    ensures var t, n := Next(s, Request(head)), |s.msgs|;
      && |t.msgs| == n + 1 && SameHeads(s, t) && t.msgs[n].head == head && t.logs == s.logs + [SILENT]
  {
    AssignKeepsLogs(Arrived(s, head), |s.msgs|);
  }

  lemma UseLogs(s: State, i: nat, call: Call)
    requires WellFormed(s) && i < |s.msgs|
    ensures var t := Next(s, Use(i, call));
      && |t.msgs| == |s.msgs| && SameHeads(s, t) && t.logs == s.logs[i := Noted(s.msgs[i].head, s.logs[i], call)]
  {
    CalledKeepsHead(s.msgs[i], Live(s, i), call);
    hide Called, Noted;
    if Fires(s, i, call) {
      FinishKeepsLogs(AfterCall(s, i, call), i);
    }
  }

  function LogAt(s: State, k: nat): Log {
    if k < |s.logs| then s.logs[k] else SILENT
  }

  function HeadAt(s: State, heads: seq<Head>, k: nat): Head
    requires k < |s.msgs| + |heads|
  {
    if k < |s.msgs| then s.msgs[k].head else heads[k - |s.msgs|]
  }

  /** Response k belongs to the k-th request, and its log is that of the calls on it. */
  lemma {:induction false} RunLogs(s: State, events: seq<Event>, k: nat)
    requires WellFormed(s)
    ensures var r := Run(s, events);
      && |r.msgs| == |s.msgs| + |Heads(events)|
      && (k < |r.msgs| ==> r.msgs[k].head == HeadAt(s, Heads(events), k)
                           && r.logs[k] == NotedAll(r.msgs[k].head, LogAt(s, k), CallsOn(events, |s.msgs|, k)))
    decreases |events|
  {
    hide Next, Noted;
    if events != [] {
      var e, t, n := events[0], Next(s, events[0]), |s.msgs|;
      RunLogs(t, events[1..], k);
      if e.Request? {
        RequestLogs(s, e.head);
        assert k != n ==> LogAt(t, k) == LogAt(s, k);
      } else if e.k < n {
        UseLogs(s, e.k, e.call);
        if e.k == k {
          NotedFirst(s.msgs[k].head, s.logs[k], e.call, CallsOn(events[1..], n, k));
        }
      } else {
        UseLate(s, e.k, e.call);
      }
    }
  }

  lemma UseLate(s: State, i: nat, call: Call)
    requires WellFormed(s) && i >= |s.msgs|
    ensures Next(s, Use(i, call)) == s
  {
  }

  lemma NotedFirst(head: Head, log: Log, call: Call, calls: seq<Call>)
    ensures NotedAll(head, log, [call] + calls) == NotedAll(head, Noted(head, log, call), calls)
  {
    assert ([call] + calls)[1..] == calls;
  }

  function Calls(events: seq<Event>, k: nat): seq<Call> {
    CallsOn(events, 0, k)
  }

  /**
   * After every run response k has the header of the k-th request, has ended just when one of the calls on it was end, and holds the
   * bytes and the trailers these calls gave it until then.
   */
  lemma RunTold(events: seq<Event>, k: nat)
    requires k < |Heads(events)|
    ensures var r := Run(INITIAL, events);
      var head, calls, log := Heads(events)[k], Calls(events, k), LogAt(r, k);
      && |r.msgs| == |r.logs| == |Heads(events)| && r.msgs[k].head == head && log.ended == Over(calls)
      && Flat(log.body) == (if head.hasBody then BodyOf(calls) else "") && log.trailer == TrailersOf(calls, [])
  {
    hide Run, Heads, CallsOn, NotedAll, Flat, BodyOf, TrailersOf, Over;
    RunLogs(INITIAL, events, k);
    NotedAllIs(Heads(events)[k], SILENT, Calls(events, k));
    NothingSaid(BodyOf(Calls(events, k)));
  }

  lemma NothingSaid(body: Bytes)
    ensures !SILENT.ended && SILENT.body == [] && SILENT.trailer == [] && WellFormed(INITIAL) && INITIAL.msgs == []
    ensures Flat([]) + body == body && Flat([]) + "" == ""
  {
  }

  // ---------- what the client reads ----------

  /** No trailer has a line end in it. */
  predicate NoReturns(fields: seq<Field>) {
    forall f :: f in fields ==> 13 as char !in f.name && 13 as char !in f.value
  }

  /** Each trailer is a line: its name, a colon, a space and its value. */
  function TrailerLines(fields: seq<Field>): seq<Bytes> {
    seq(|fields|, k requires 0 <= k < |fields| => fields[k].name + [58 as char, 32 as char] + fields[k].value)
  }

  lemma LineIs(f: Field)
    ensures f.Line() == f.name + [58 as char, 32 as char] + f.value
    ensures 13 as char !in f.name && 13 as char !in f.value ==> OneLine(f.Line())
  {
    assert ": " == [58 as char, 32 as char];
  }

  lemma {:induction false} LinesAre(fields: seq<Field>)
    ensures Lines(fields) == TrailerLines(fields)
    ensures NoReturns(fields) ==> OneLineEach(fields)
  {
    if fields != [] {
      LineIs(fields[0]);
      LinesAre(fields[1..]);
      assert TrailerLines(fields) == [fields[0].Line()] + TrailerLines(fields[1..]);
      if NoReturns(fields) {
        assert forall k :: 1 <= k < |fields| ==> fields[k] == fields[1..][k - 1];
      }
    }
  }

  /** The client finds the reply's end, and the handler made it true. */
  predicate Right(framing: Framing, head: Head, calls: seq<Call>) {
    match framing
    case Coded => head.hasBody && head.chunked && NoReturns(TrailersOf(calls, []))
    case Counted(n) => !head.chunked && n == if head.hasBody then |BodyOf(calls)| else 0
    case UntilClose => head.hasBody && !head.chunked && head.last
  }

  function ReplyTo(head: Head, calls: seq<Call>): Reply {
    Reply(if head.hasBody then BodyOf(calls) else "", if head.hasBody && head.chunked then TrailerLines(TrailersOf(calls, [])) else [])
  }

  function Asked(heads: seq<Head>, framings: seq<Framing>): seq<Expected>
    requires |framings| <= |heads|
  {
    seq(|framings|, k requires 0 <= k < |framings| => Expected(heads[k].text, framings[k]))
  }

  function Given(events: seq<Event>, d: nat): seq<Reply>
    requires d <= |Heads(events)|
  {
    seq(d, k requires 0 <= k < d => ReplyTo(Heads(events)[k], Calls(events, k)))
  }

  lemma {:induction false} ExpectsAre(s: State, heads: seq<Head>, framings: seq<Framing>, d: nat)
    requires d <= |framings| <= |heads| <= |s.msgs| && forall k :: 0 <= k < d ==> s.msgs[k].head == heads[k]
    ensures Expects(s, framings, d) == Asked(heads, framings[..d])
  {
    if d > 0 {
      ExpectsAre(s, heads, framings, d - 1);
      assert Asked(heads, framings[..d]) == Asked(heads, framings[..d - 1]) + [Expected(heads[d - 1].text, framings[d - 1])];
    }
  }

  lemma {:induction false} RepliesAre(s: State, events: seq<Event>, d: nat)
    requires d <= |Heads(events)| && s == Run(INITIAL, events) && |s.msgs| == |s.logs| == |Heads(events)|
    ensures Replies(s, d) == Given(events, d)
  {
    hide Run, ReplyOf, ReplyTo, Heads;
    if d > 0 {
      RepliesAre(s, events, d - 1);
      ReplyIs(s, events, d - 1);
      assert Given(events, d) == Given(events, d - 1) + [ReplyTo(Heads(events)[d - 1], Calls(events, d - 1))];
    }
  }

  lemma ReplyIs(s: State, events: seq<Event>, k: nat)
    requires k < |Heads(events)| && s == Run(INITIAL, events) && |s.msgs| == |s.logs| == |Heads(events)|
    ensures ReplyOf(s.msgs[k].head, s.logs[k]) == ReplyTo(Heads(events)[k], Calls(events, k))
  {
    hide Run, Heads, Flat;
    RunTold(events, k);
    LinesAre(TrailersOf(Calls(events, k), []));
  }

  lemma RightFits(s: State, events: seq<Event>, framing: Framing, k: nat)
    requires k < |Heads(events)| && s == Run(INITIAL, events) && |s.msgs| == |s.logs| == |Heads(events)|
    requires Right(framing, Heads(events)[k], Calls(events, k))
    ensures Fits(framing, s.msgs[k].head, s.logs[k])
  {
    hide Run, Heads, Flat;
    RunTold(events, k);
    LinesAre(TrailersOf(Calls(events, k), []));
  }

  lemma RunSizes(events: seq<Event>)
    ensures var s := Run(INITIAL, events); |s.msgs| == |s.logs| == |Heads(events)|
  {
    RunLogs(INITIAL, events, 0);
  }

  /**
   * End to end, from the handlers' calls to the client: however the requests and the calls follow each other, the client that sent
   * the requests reads, in their order, the header of each reply, the bytes its handler wrote until it ended the reply, and the
   * trailers it gave last; d replies are complete, and the handler of each of them called end.
   */
  lemma DeliveredCalls(events: seq<Event>, framings: seq<Framing>)
    requires PoliteRun(INITIAL, events) && |framings| == |Run(INITIAL, events).finishes| <= |Heads(events)|
    requires forall k :: 0 <= k < |framings| ==> Right(framings[k], Heads(events)[k], Calls(events, k))
    ensures var r := Receive(Asked(Heads(events), framings), Run(INITIAL, events).sent);
      r.Some? && r.value.0 == Given(events, |framings|)
    ensures forall k :: 0 <= k < |framings| ==> Over(Calls(events, k))
  {
    hide Run, Heads, Calls, Inv, PoliteRun, Over, Right, Fits;
    var s, d := Run(INITIAL, events), |framings|;
    RunSizes(events);
    RunKeeps(events);
    forall k | 0 <= k < d ensures Fits(framings[k], s.msgs[k].head, s.logs[k]) && s.msgs[k].head == Heads(events)[k] && Over(Calls(events, k)) {
      RightFits(s, events, framings[k], k);
      RunTold(events, k);
      FinishedWhen(s, k);
    }
    assert framings[..d] == framings;
    ExpectsAre(s, Heads(events), framings, d);
    RepliesAre(s, events, d);
    Delivered(s, framings);
  }

  lemma RunKeeps(events: seq<Event>)
    requires PoliteRun(INITIAL, events)
    ensures Inv(Run(INITIAL, events))
  {
    InitialInv();
    RunInv(INITIAL, events);
  }
}
