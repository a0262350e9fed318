/** A server connection: the responses to pipelined requests take turns on one socket. */
module PipelineSpec {
  import opened Results
  import opened Chunked
  import opened OutgoingSpec

  /** Responses are numbered in the order of their requests. Every log, and the list of finish events, is history. */
  datatype State = State(msgs: seq<Message>, logs: seq<Log>, current: Option<nat>, incoming: seq<nat>, outgoing: seq<nat>,
                         sent: Bytes, writable: bool, finishes: seq<nat>)

  datatype Call = WriteCall(chunk: Data) | TrailersCall(fields: seq<Field>) | EndCall(data: Option<Data>)

  predicate WellFormed(s: State) {
    |s.logs| == |s.msgs| && forall i :: 0 <= i < |s.outgoing| ==> s.outgoing[i] < |s.msgs|
  }

  predicate Live(s: State, k: nat) {
    s.current == Some(k) && s.writable
  }

  function Tail(s: seq<nat>): (t: seq<nat>) {
    if s == [] then [] else s[1..]
  }

  /** The finish listener's bookkeeping. */
  function Taken(s: State, k: nat): State {
    s.(finishes := s.finishes + [k], incoming := Tail(s.incoming), current := None)
  }

  /** The listener of a response's finish event. */
  function Finish(s: State, k: nat): (r: State)
    requires WellFormed(s) && k < |s.msgs|
    ensures WellFormed(r) && |r.msgs| == |s.msgs|
    decreases |s.outgoing|, 0
  {
    var s1 := Taken(s, k);
    if s.msgs[k].head.last then s1.(writable := false)
    else if s.outgoing == [] then s1
    else Assign(s1.(outgoing := s.outgoing[1..]), s.outgoing[0])
  }

  /** assignSocket: the response takes its turn, and may already be complete. */
  function Assign(s: State, k: nat): (r: State)
    requires WellFormed(s) && k < |s.msgs|
    ensures WellFormed(r) && |r.msgs| == |s.msgs|
    decreases |s.outgoing|, 1
  {
    var step := Flush(s.msgs[k], s.writable);
    var s1 := s.(current := Some(k), msgs := s.msgs[k := step.m], sent := s.sent + step.wrote);
    if step.m.output == [] && step.m.finished then Finish(s1, k) else s1
  }

  function NewMessage(head: Head): Message {
    Message(head, false, "", [], false)
  }

  function Arrived(s: State, head: Head): (t: State)
    requires WellFormed(s)
    ensures WellFormed(t)
  {
    var n := |s.msgs|;
    s.(msgs := s.msgs + [NewMessage(head)], logs := s.logs + [SILENT], incoming := s.incoming + [n])
  }

  /** A request has been read; head is what its response will render. */
  function Incoming(s: State, head: Head): (r: State)
    requires WellFormed(s)
    ensures WellFormed(r) && |r.msgs| == |s.msgs| + 1
  {
    var k := |s.msgs|;
    var s1 := Arrived(s, head);
    if s.current.Some? then s1.(outgoing := s.outgoing + [k]) else Assign(s1, k)
  }

  function Noted(head: Head, log: Log, call: Call): Log {
    if log.ended then log
    else
      match call
      case WriteCall(chunk) => Said(head, log, chunk.bytes)
      case TrailersCall(fields) => log.(trailer := fields)
      case EndCall(data) => SaidLast(head, log, data)
  }

  function Called(m: Message, live: bool, call: Call): Step {
    match call
    case WriteCall(chunk) => Write(m, live, chunk)
    case TrailersCall(fields) => Step(m.(trailer := Trailer(fields)), "")
    case EndCall(data) => End(m, live, data)
  }

  /** The call may finish its response: it ended it, and nothing is pending. */
  predicate Fires(s: State, k: nat, call: Call)
    requires WellFormed(s) && k < |s.msgs|
  {
    call.EndCall? && !s.msgs[k].finished && s.current == Some(k) && Called(s.msgs[k], Live(s, k), call).m.output == []
  }

  function AfterCall(s: State, k: nat, call: Call): (r: State)
    requires WellFormed(s) && k < |s.msgs|
    ensures WellFormed(r) && |r.msgs| == |s.msgs|
  {
    var m, step := s.msgs[k], Called(s.msgs[k], Live(s, k), call);
    s.(msgs := s.msgs[k := step.m], logs := s.logs[k := Noted(m.head, s.logs[k], call)], sent := s.sent + step.wrote)
  }

  lemma CompleteIsCurrent(s: State, d: nat)
    requires Complete(s, d)
    ensures WellFormed(s) && d < |s.msgs| && s.writable && s.current == Some(d)
  {
  }

  /** What a call changes. */
  lemma AfterCallParts(s: State, k: nat, call: Call)
    requires WellFormed(s) && k < |s.msgs|
    ensures var t, step := AfterCall(s, k, call), Called(s.msgs[k], Live(s, k), call);
      && t.msgs == s.msgs[k := step.m] && t.sent == s.sent + step.wrote && WellFormed(t)
      && t.current == s.current && t.incoming == s.incoming && t.outgoing == s.outgoing && t.writable == s.writable
  {
  }

  /** A handler calls a method of response k. */
  function Do(s: State, k: nat, call: Call): (r: State)
    requires WellFormed(s) && k < |s.msgs|
    ensures WellFormed(r) && |r.msgs| == |s.msgs|
  {
    var s1 := AfterCall(s, k, call);
    if Fires(s, k, call) then Finish(s1, k) else s1
  }

  // ---------- the invariant ----------

  function Range(a: nat, b: nat): (r: seq<nat>)
    ensures a <= b ==> |r| == b - a && forall i :: 0 <= i < |r| ==> r[i] == a + i
    decreases b - a
  {
    if a < b then [a] + Range(a + 1, b) else []
  }

  lemma {:induction false} RangeGrows(a: nat, b: nat)
    requires a <= b
    ensures Range(a, b + 1) == Range(a, b) + [b]
    decreases b - a
  {
    if a < b {
      RangeGrows(a + 1, b);
    } else {
      assert Range(b + 1, b + 1) == [];
    }
  }

  /** Response k as its handler has written it. */
  function Whole(s: State, k: nat): Bytes
    requires WellFormed(s) && k < |s.msgs|
  {
    Wire(s.msgs[k].head, s.logs[k])
  }

  /** The first d responses, one after the other. */
  function Wholes(s: State, d: nat): Bytes
    requires WellFormed(s) && d <= |s.msgs|
  {
    if d == 0 then "" else Wholes(s, d - 1) + Whole(s, d - 1)
  }

  predicate Ended(m: Message, log: Log) {
    m.finished && m.head.text != "" && log.ended && NoneEmpty(log.body) && (!m.head.hasBody ==> log.body == [])
  }

  /** No response before it closes the connection. */
  predicate MayBeSent(s: State, k: nat)
    requires k <= |s.msgs|
  {
    forall i :: 0 <= i < k ==> !s.msgs[i].head.last
  }

  /** Nothing of the response is sent, and all of it pends; or it has ended, and never will be sent. */
  predicate Waiting(s: State, k: nat)
    requires WellFormed(s) && k < |s.msgs|
  {
    Holds(s.msgs[k], s.logs[k], "") || (Ended(s.msgs[k], s.logs[k]) && !MayBeSent(s, k))
  }

  /** Requests before the d-th are answered, in order and once each. */
  predicate Answered(s: State, d: nat) {
    && |s.logs| == |s.msgs| && d <= |s.msgs|
    && s.finishes == Range(0, d) && s.incoming == Range(d, |s.msgs|)
    && (forall k :: 0 <= k < d ==> Ended(s.msgs[k], s.logs[k]))
    && (forall k :: 0 <= k < d - 1 ==> !s.msgs[k].head.last)
  }

  predicate AllWait(s: State, d: nat)
    requires WellFormed(s)
  {
    forall k :: d <= k < |s.msgs| ==> Waiting(s, k)
  }

  /** While the socket is writable: it carries whole responses and what there is of the next, whose turn it is. */
  predicate Open(s: State, d: nat)
    requires WellFormed(s) && d <= |s.msgs|
  {
    && (d > 0 ==> !s.msgs[d - 1].head.last) && AllWait(s, d + 1)
    && (if d == |s.msgs| then s.current == None && s.outgoing == [] && s.sent == Wholes(s, d)
        else && s.current == Some(d) && s.outgoing == Range(d + 1, |s.msgs|)
             && !s.logs[d].ended && s.msgs[d].output == [] && Holds(s.msgs[d], s.logs[d], Whole(s, d))
             && s.sent == Wholes(s, d) + Whole(s, d))
  }

  /** After the last response: it carries whole responses. */
  predicate Closed(s: State, d: nat)
    requires WellFormed(s) && d <= |s.msgs|
  {
    && d > 0 && s.msgs[d - 1].head.last && AllWait(s, d) && s.sent == Wholes(s, d)
    && (s.current.Some? ==> d <= s.current.value < |s.msgs|)
    && forall i :: 0 <= i < |s.outgoing| ==> d <= s.outgoing[i]
  }

  predicate Inv(s: State) {
    WellFormed(s) && Answered(s, |s.finishes|) && if s.writable then Open(s, |s.finishes|) else Closed(s, |s.finishes|)
  }

  const INITIAL := State([], [], None, [], [], "", true, [])

  lemma InitialInv()
    ensures Inv(INITIAL)
  {
  }

  /** Bytes of whole responses depend on these responses only. */
  lemma {:induction false} WholesStay(s: State, t: State, d: nat)
    requires WellFormed(s) && WellFormed(t) && d <= |s.msgs| && d <= |t.msgs|
    requires forall k :: 0 <= k < d ==> t.msgs[k].head == s.msgs[k].head && t.logs[k] == s.logs[k]
    ensures Wholes(t, d) == Wholes(s, d)
  {
    if d > 0 {
      WholesStay(s, t, d - 1);
    }
  }

  predicate SameHeads(s: State, t: State) {
    |s.msgs| <= |t.msgs| && forall i :: 0 <= i < |s.msgs| ==> t.msgs[i].head == s.msgs[i].head
  }

  lemma MayStay(s: State, t: State, k: nat)
    requires SameHeads(s, t) && k <= |s.msgs|
    ensures MayBeSent(t, k) <==> MayBeSent(s, k)
  {
    assert forall i :: 0 <= i < k ==> t.msgs[i].head == s.msgs[i].head;
  }

  // ---------- a turn begins, and ends ----------

  /** Between two turns. */
  predicate Ready(s: State, d: nat) {
    && WellFormed(s) && Answered(s, d) && d < |s.msgs| && (d > 0 ==> !s.msgs[d - 1].head.last)
    && s.writable && s.current == None && s.outgoing == Range(d + 1, |s.msgs|)
    && AllWait(s, d) && s.sent == Wholes(s, d)
  }

  /** Response d has ended, in its turn, with nothing pending. */
  predicate Complete(s: State, d: nat) {
    && WellFormed(s) && Answered(s, d) && d < |s.msgs| && (d > 0 ==> !s.msgs[d - 1].head.last)
    && s.writable && s.current == Some(d) && s.outgoing == Range(d + 1, |s.msgs|)
    && AllWait(s, d + 1) && Ended(s.msgs[d], s.logs[d]) && s.sent == Wholes(s, d) + Whole(s, d)
  }

  /** A waiting response whose turn it is goes out whole, as far as it has been written. */
  lemma FlushedWhole(m: Message, log: Log)
    requires Holds(m, log, "")
    ensures var step := Flush(m, true);
      step.wrote == Wire(m.head, log) && step.m == m.(output := []) && Holds(step.m, log, Wire(m.head, log))
  {
    hide Wire;
    FlushHolds(m, log, "", true);
    assert Pending([]) == "";
    assert "" + Pending(m.output) == Pending(m.output);
  }

  function FlushedState(s: State, d: nat): State
    requires WellFormed(s) && d < |s.msgs|
  {
    s.(current := Some(d), msgs := s.msgs[d := s.msgs[d].(output := [])], sent := s.sent + Whole(s, d))
  }

  lemma FlushedWaits(s: State, d: nat)
    requires Ready(s, d)
    ensures var s1 := FlushedState(s, d); WellFormed(s1) && AllWait(s1, d + 1) && s1.sent == Wholes(s1, d) + Whole(s1, d)
  {
    hide Wholes, Whole, Holds, Answered, Waiting;
    var s1 := FlushedState(s, d);
    WholeStays(s, s1, d);
    WholesStay(s, s1, d);
    Unchanged(s, s1, d, d + 1);
  }

  lemma WholeStays(s: State, t: State, k: nat)
    requires WellFormed(s) && WellFormed(t) && k < |s.msgs| && k < |t.msgs| && t.msgs[k].head == s.msgs[k].head && t.logs[k] == s.logs[k]
    ensures Whole(t, k) == Whole(s, k)
  {
  }

  lemma FlushedTurn(s: State, d: nat)
    requires Ready(s, d) && Holds(s.msgs[d].(output := []), s.logs[d], Whole(s, d))
    ensures var s1 := FlushedState(s, d); if s.msgs[d].finished then Complete(s1, d) else Inv(s1)
  {
    hide Wholes, Wire, Waiting;
    FlushedWaits(s, d);
    assert |Range(0, d)| == d;
  }

  lemma Flushed(s: State, d: nat)
    requires Ready(s, d)
    ensures var step := Flush(s.msgs[d], true);
      var s1 := s.(current := Some(d), msgs := s.msgs[d := step.m], sent := s.sent + step.wrote);
      && (step.m.finished ==> Complete(s1, d)) && (!step.m.finished ==> Inv(s1)) && step.m.output == []
      && Assign(s, d) == if step.m.finished then Finish(s1, d) else s1
  {
    hide Wholes, Wire, Holds, Answered;
    WaitsItsTurn(s, d);
    FlushedWhole(s.msgs[d], s.logs[d]);
    FlushedTurn(s, d);
  }

  lemma WaitsItsTurn(s: State, d: nat)
    requires Ready(s, d)
    ensures Waiting(s, d) && MayBeSent(s, d)
  {
  }

  /** Responses that nothing happened to still wait. */
  lemma Unchanged(s: State, t: State, d: nat, e: nat)
    requires WellFormed(s) && WellFormed(t) && |s.msgs| == |t.msgs| && AllWait(s, d) && d <= e
    requires forall k :: e <= k < |s.msgs| ==> t.msgs[k] == s.msgs[k] && t.logs[k] == s.logs[k]
    requires SameHeads(s, t)
    ensures AllWait(t, e)
  {
    forall k | e <= k < |t.msgs| ensures Waiting(t, k) {
      assert Waiting(s, k);
      MayStay(s, t, k);
    }
  }

  /** assignSocket keeps the invariant, however many of the queued responses are complete. */
  lemma {:induction false} AssignInv(s: State, d: nat)
    requires Ready(s, d)
    ensures Inv(Assign(s, d))
    decreases |s.outgoing|, 1
  {
    Flushed(s, d);
    var step := Flush(s.msgs[d], true);
    var s1 := s.(current := Some(d), msgs := s.msgs[d := step.m], sent := s.sent + step.wrote);
    if step.m.finished {
      FinishInv(s1, d);
    }
  }

  lemma TakenAnswered(s: State, d: nat)
    requires Complete(s, d)
    ensures var t := Taken(s, d);
      Answered(t, d + 1) && t.sent == Wholes(t, d + 1) && AllWait(t, d + 1)
  {
    RangeGrows(0, d);
    WholesStay(s, Taken(s, d), d);
    Unchanged(s, Taken(s, d), d + 1, d + 1);
  }

  /** The next response may take its turn. */
  lemma NextReady(s: State, d: nat)
    requires Complete(s, d) && !s.msgs[d].head.last && s.outgoing != []
    ensures s.outgoing[0] == d + 1 && Ready(Taken(s, d).(outgoing := s.outgoing[1..]), d + 1)
  {
    var t := Taken(s, d);
    TakenAnswered(s, d);
    var t' := t.(outgoing := s.outgoing[1..]);
    hide Holds, Wholes, Whole, Waiting;
    Unchanged(t, t', d + 1, d + 1);
    WholesStay(t, t', d + 1);
  }

  lemma {:induction false} FinishInv(s: State, d: nat)
    requires Complete(s, d)
    ensures Inv(Finish(s, d))
    decreases |s.outgoing|, 0
  {
    hide Holds, Wholes, Whole, Waiting;
    var t := Taken(s, d);
    TakenAnswered(s, d);
    if s.msgs[d].head.last {
      var t' := t.(writable := false);
      Unchanged(t, t', d + 1, d + 1);
      WholesStay(t, t', d + 1);
    } else if s.outgoing != [] {
      NextReady(s, d);
      AssignInv(t.(outgoing := s.outgoing[1..]), d + 1);
    }
  }

  // ---------- every event keeps the invariant ----------

  /** A new response waits like the others. */
  lemma ArrivedWaits(s: State, head: Head, d: nat, e: nat)
    requires WellFormed(s) && Answered(s, d) && AllWait(s, e) && head.text != ""
    ensures var t := Arrived(s, head);
      Answered(t, d) && AllWait(t, e) && Wholes(t, d) == Wholes(s, d) && (d < |s.msgs| ==> Whole(t, d) == Whole(s, d))
  {
    var t := Arrived(s, head);
    NewHolds(head);
    RangeGrows(d, |s.msgs|);
    WholesStay(s, t, d);
    forall k | e <= k < |t.msgs| ensures Waiting(t, k) {
      if k < |s.msgs| {
        assert Waiting(s, k);
        MayStay(s, t, k);
      }
    }
  }

  lemma Queued(t: State, d: nat, e: nat, k: nat)
    requires WellFormed(t) && Answered(t, d) && AllWait(t, e) && k < |t.msgs|
    ensures var u := t.(outgoing := t.outgoing + [k]);
      && WellFormed(u) && Answered(u, d) && AllWait(u, e) && Wholes(u, d) == Wholes(t, d)
      && (d < |t.msgs| ==> Whole(u, d) == Whole(t, d))
  {
    var u := t.(outgoing := t.outgoing + [k]);
    WholesStay(t, u, d);
    Unchanged(t, u, e, e);
  }

  lemma IncomingOpen(s: State, head: Head)
    requires Inv(s) && head.text != "" && s.writable
    ensures Inv(Incoming(s, head))
  {
    hide Wholes, Whole, Holds;
    var n, d, t := |s.msgs|, |s.finishes|, Arrived(s, head);
    if d < n {
      ArrivedWaits(s, head, d, d + 1);
      Queued(t, d, d + 1, n);
      RangeGrows(d + 1, n);
    } else {
      assert AllWait(s, n);
      ArrivedWaits(s, head, d, d);
      AssignInv(t, n);
    }
  }

  lemma IncomingClosed(s: State, head: Head)
    requires Inv(s) && head.text != "" && !s.writable
    ensures Inv(Incoming(s, head))
  {
    var n, d, t := |s.msgs|, |s.finishes|, Arrived(s, head);
    ArrivedWaits(s, head, d, d);
    if s.current.Some? {
      Queued(t, d, d, n);
    } else {
      var u := t.(current := Some(n));
      assert t.msgs[n := t.msgs[n]] == t.msgs && t.sent + "" == t.sent;
      assert Incoming(s, head) == u;
      Unchanged(t, u, d, d);
      WholesStay(t, u, d);
    }
  }

  lemma IncomingInv(s: State, head: Head)
    requires Inv(s) && head.text != ""
    ensures Inv(Incoming(s, head))
  {
    if s.writable {
      IncomingOpen(s, head);
    } else {
      IncomingClosed(s, head);
    }
  }

  /** The call writes, and writes something. */
  predicate Writes(head: Head, call: Call) {
    call.WriteCall? && head.hasBody && call.chunk.bytes != ""
  }

  lemma CalledHolds(m: Message, log: Log, delivered: Bytes, live: bool, call: Call)
    requires Holds(m, log, delivered) && !(log.ended && Writes(m.head, call))
    ensures var step := Called(m, live, call);
      && Holds(step.m, Noted(m.head, log, call), delivered + step.wrote)
      && (live && m.output == [] && !log.ended ==> step.m.output == [])
  {
    assert delivered + "" == delivered;
    match call
    case WriteCall(chunk) =>
      if !log.ended {
        WriteHolds(m, log, delivered, live, chunk);
      }
    case TrailersCall(fields) =>
    case EndCall(data) =>
      EndHolds(m, log, delivered, live, data);
  }

  /** Without a live connection nothing is written. */
  lemma CalledQuietly(m: Message, call: Call)
    ensures Called(m, false, call).wrote == ""
  {
  }

  lemma CalledKeepsHead(m: Message, live: bool, call: Call)
    ensures Called(m, live, call).m.head == m.head
    ensures m.finished ==> Called(m, live, call).m.finished
  {
  }

  /** A handler that has ended its response writes nothing more to it until it has been sent, if it ever will be. */
  predicate Polite(s: State, k: nat, call: Call)
    requires WellFormed(s) && k < |s.msgs|
  {
    s.logs[k].ended && Writes(s.msgs[k].head, call) ==> k < |s.finishes| || !MayBeSent(s, k)
  }

  /** A call on a response whose turn it is not writes nothing, and does not finish it. */
  lemma QuietCall(s: State, k: nat, call: Call)
    requires Inv(s) && k < |s.msgs| && !Live(s, k)
    ensures !Fires(s, k, call) && AfterCall(s, k, call).sent == s.sent
  {
    hide Called;
    CalledQuietly(s.msgs[k], call);
    assert s.sent + "" == s.sent;
    if Fires(s, k, call) {
      assert Waiting(s, k) && !s.logs[k].ended;
      CalledHolds(s.msgs[k], s.logs[k], "", false, call);
      var step := Called(s.msgs[k], false, call);
      assert "" + step.wrote == "";
      FinishedPends(step.m, Noted(s.msgs[k].head, s.logs[k], call));
      assert false;
    }
  }

  lemma QuietInv(s: State, k: nat, call: Call)
    requires Inv(s) && k < |s.msgs| && !Live(s, k)
    ensures Inv(Do(s, k, call)) <==> Polite(s, k, call)
  {
    hide Called, Wire, Pending;
    QuietCall(s, k, call);
    var t, d := AfterCall(s, k, call), |s.finishes|;
    CalledKeepsHead(s.msgs[k], false, call);
    CalledQuietly(s.msgs[k], call);
    WholesStay(s, t, d);
    MayStay(s, t, k);
    if k < d {
      AnsweredQuietly(s, t, k);
    } else {
      assert Waiting(s, k);
      var step := Called(s.msgs[k], false, call);
      assert "" + step.wrote == "";
      if Polite(s, k, call) {
        if !(s.logs[k].ended && !MayBeSent(s, k)) {
          CalledHolds(s.msgs[k], s.logs[k], "", false, call);
        }
        AnsweredQuietly(s, t, k);
      } else {
        CalledIsWrite(s.msgs[k], call);
        WriteAfterEnd(s.msgs[k], s.logs[k], "", false, call.chunk);
        assert !Waiting(t, k);
      }
    }
  }

  lemma CalledIsWrite(m: Message, call: Call)
    requires call.WriteCall?
    ensures Called(m, false, call) == Write(m, false, call.chunk)
  {
  }

  /** Only response k changed, and it has its place in the invariant. */
  lemma AnsweredQuietly(s: State, t: State, k: nat)
    requires Inv(s) && WellFormed(t) && k < |s.msgs| && !Live(s, k)
    requires t == s.(msgs := t.msgs, logs := t.logs) && |t.msgs| == |s.msgs|
    requires forall i :: 0 <= i < |s.msgs| && i != k ==> t.msgs[i] == s.msgs[i] && t.logs[i] == s.logs[i]
    requires t.msgs[k].head == s.msgs[k].head && (if k < |s.finishes| then Ended(t.msgs[k], t.logs[k]) && t.logs[k] == s.logs[k] else Waiting(t, k))
    ensures Inv(t)
  {
    hide Holds, Wholes, Wire;
    var d := |s.finishes|;
    WholesStay(s, t, d);
    var e := if s.writable then d + 1 else d;
    forall i | e <= i < |t.msgs| ensures Waiting(t, i) {
      assert Waiting(s, i);
      MayStay(s, t, i);
    }
    assert AllWait(t, e);
  }

  lemma NonePend()
    ensures Pending([]) == ""
  {
  }

  /** What a call on the response whose turn it is leaves to its finish. */
  lemma LiveCall(s: State, k: nat, call: Call)
    requires Inv(s) && k < |s.msgs| && Live(s, k)
    ensures var t := AfterCall(s, k, call);
      && (if call.EndCall? then Complete(t, k) else Inv(t)) && Called(s.msgs[k], true, call).m.output == []
  {
    hide Called, Fires, Noted, Wire, Pending;
    var t, m, log := AfterCall(s, k, call), s.msgs[k], s.logs[k];
    var step := Called(m, true, call);
    CalledHolds(m, log, Whole(s, k), true, call);
    CalledKeepsHead(m, true, call);
    CalledEnds(m.head, log, call);
    assert t.msgs[k] == step.m && t.logs[k] == Noted(m.head, log, call);
    NonePend();
    assert Whole(t, k) == Whole(s, k) + step.wrote + Pending([]);
    Assoc(Wholes(s, k), Whole(s, k), step.wrote);
    WholesStay(s, t, k);
    Unchanged(s, t, k + 1, k + 1);
  }

  lemma CalledEnds(head: Head, log: Log, call: Call)
    requires !log.ended
    ensures Noted(head, log, call).ended <==> call.EndCall?
  {
  }

  lemma LiveInv(s: State, k: nat, call: Call)
    requires Inv(s) && k < |s.msgs| && Live(s, k)
    ensures Inv(Do(s, k, call))
  {
    LiveCall(s, k, call);
    CallFires(s, k, call);
    if call.EndCall? {
      FinishInv(AfterCall(s, k, call), k);
    }
  }

  lemma CallFires(s: State, k: nat, call: Call)
    requires Inv(s) && k < |s.msgs| && Live(s, k) && Called(s.msgs[k], true, call).m.output == []
    ensures Fires(s, k, call) <==> call.EndCall?
  {
  }

  /** A handler's call keeps the connection in order just when it does not write to a response it has ended. */
  lemma DoInv(s: State, k: nat, call: Call)
    requires Inv(s) && k < |s.msgs|
    ensures Inv(Do(s, k, call)) <==> Polite(s, k, call)
  {
    if Live(s, k) {
      LiveInv(s, k, call);
    } else {
      QuietInv(s, k, call);
    }
  }

  /** A call that is not live writes nothing. */
  lemma NotLive(s: State, k: nat, call: Call)
    requires WellFormed(s) && k < |s.msgs|
    ensures !Live(s, k) ==> Called(s.msgs[k], false, call).wrote == "" && AfterCall(s, k, call).sent == s.sent
  {
    if !Live(s, k) {
      CalledQuietly(s.msgs[k], call);
      assert s.sent + "" == s.sent;
    }
  }

  /** What end relies on: a response without the socket that has sent its header, and not ended, has something pending. */
  lemma EndMay(s: State, k: nat)
    requires Inv(s) && k < |s.msgs|
    ensures s.current != Some(k) && s.msgs[k].headerSent && !s.msgs[k].finished ==> s.msgs[k].output != []
    ensures s.msgs[k].head.text != ""
  {
    if |s.finishes| <= k && !(s.writable && k == |s.finishes|) {
      assert Waiting(s, k);
      assert "" + Pending(s.msgs[k].output) == Pending(s.msgs[k].output);
    }
  }

  /** A call that finishes its response leaves it complete. */
  lemma EndFires(s: State, k: nat, data: Option<Data>)
    requires Inv(s) && k < |s.msgs| && Fires(s, k, EndCall(data))
    ensures Complete(AfterCall(s, k, EndCall(data)), k)
  {
    if Live(s, k) {
      LiveCall(s, k, EndCall(data));
    } else {
      QuietCall(s, k, EndCall(data));
    }
  }

  /** A new response on a free socket may take its turn. */
  lemma ArrivedReady(s: State, head: Head)
    requires Inv(s) && head.text != "" && s.current == None
    ensures var t := Arrived(s, head);
      if s.writable then Ready(t, |s.msgs|) else !t.msgs[|s.msgs|].finished
  {
    if s.writable {
      assert AllWait(s, |s.msgs|);
      ArrivedWaits(s, head, |s.msgs|, |s.msgs|);
    }
  }

  // ---------- runs ----------

  datatype Event = Request(head: Head) | Use(k: nat, call: Call)

  function Next(s: State, e: Event): (r: State)
    requires WellFormed(s)
    ensures WellFormed(r)
  {
    match e
    case Request(head) => Incoming(s, head)
    case Use(k, call) => if k < |s.msgs| then Do(s, k, call) else s
  }

  function Run(s: State, events: seq<Event>): (r: State)
    requires WellFormed(s)
    ensures WellFormed(r)
    decreases |events|
  {
    if events == [] then s else Run(Next(s, events[0]), events[1..])
  }

  /** A header is never empty, and no handler writes to a response that it has ended and that is not yet sent. */
  predicate PoliteRun(s: State, events: seq<Event>)
    requires WellFormed(s)
    decreases |events|
  {
    events != [] ==>
      && (match events[0]
          case Request(head) => head.text != ""
          case Use(k, call) => k < |s.msgs| ==> Polite(s, k, call))
      && PoliteRun(Next(s, events[0]), events[1..])
  }

  /**
   * Whatever the handlers of whatever requests call in whatever order, the socket carries whole responses in request order
   * followed by at most one partial response, and every response finishes at most once, in order.
   */
  lemma {:induction false} RunInv(s: State, events: seq<Event>)
    requires Inv(s) && PoliteRun(s, events)
    ensures Inv(Run(s, events))
    decreases |events|
  {
    assert WellFormed(s);
    hide Inv, Polite;
    if events != [] {
      match events[0] {
      case Request(head) =>
        IncomingInv(s, head);
      case Use(k, call) =>
        if k < |s.msgs| {
          DoInv(s, k, call);
        }
      }
      assert Inv(Next(s, events[0]));
      RunInv(Next(s, events[0]), events[1..]);
    }
  }

  /**
   * No response is held back, and none overtakes: it has finished just when it and those before it have ended, and none of these
   * closed the connection.
   */
  lemma FinishedWhen(s: State, k: nat)
    requires Inv(s) && k < |s.msgs|
    ensures k < |s.finishes| <==> (forall i :: 0 <= i <= k ==> s.logs[i].ended) && (forall i :: 0 <= i < k ==> !s.msgs[i].head.last)
  {
  }

  // ---------- writing to a response that has ended ----------

  /**
   * What can be seen of the connection: finishes in the order of the requests, each of a response that has ended, and on the socket
   * whole responses in this order, followed by what there is of the next one while the socket is writable.
   */
  predicate InOrder(s: State) {
    && WellFormed(s) && |s.finishes| <= |s.msgs| && s.finishes == Range(0, |s.finishes|)
    && (forall k :: 0 <= k < |s.finishes| ==> s.logs[k].ended)
    && s.sent == Wholes(s, |s.finishes|) + if s.writable && |s.finishes| < |s.msgs| then Whole(s, |s.finishes|) else ""
  }

  lemma InvInOrder(s: State)
    requires Inv(s)
    ensures InOrder(s)
  {
    assert Wholes(s, |s.finishes|) + "" == Wholes(s, |s.finishes|);
  }

  /** t is s with x bytes more on the socket. */
  predicate Longer(s: State, t: State, x: nat) {
    t == s.(sent := t.sent) && |t.sent| == |s.sent| + x
  }

  /** t is s with x bytes more pending for response k, which has ended. */
  predicate PendsMore(s: State, t: State, k: nat, x: nat) {
    && k < |s.msgs| == |t.msgs| && t == s.(msgs := t.msgs) && s.msgs[k].finished && k !in s.finishes
    && (forall i :: 0 <= i < |s.msgs| && i != k ==> t.msgs[i] == s.msgs[i])
    && t.msgs[k] == s.msgs[k].(output := t.msgs[k].output) && s.msgs[k].output != [] && t.msgs[k].output != []
    && |Pending(t.msgs[k].output)| == |Pending(s.msgs[k].output)| + x
  }

  /** The bytes are pending until the response has its turn, and from then on are on the socket. */
  predicate Stretched(s: State, t: State, k: nat, x: nat) {
    if k in s.finishes then Longer(s, t, x) else PendsMore(s, t, k, x)
  }

  lemma {:induction false} LongerAssign(s: State, t: State, x: nat, i: nat)
    requires WellFormed(s) && Longer(s, t, x) && i < |s.msgs|
    ensures Longer(Assign(s, i), Assign(t, i), x) && forall k :: k in s.finishes ==> k in Assign(s, i).finishes
    decreases |s.outgoing|, 1
  {
    var step := Flush(s.msgs[i], s.writable);
    var s1 := s.(current := Some(i), msgs := s.msgs[i := step.m], sent := s.sent + step.wrote);
    if step.m.output == [] && step.m.finished {
      LongerFinish(s1, s1.(sent := t.sent + step.wrote), x, i);
    }
  }

  lemma {:induction false} LongerFinish(s: State, t: State, x: nat, i: nat)
    requires WellFormed(s) && Longer(s, t, x) && i < |s.msgs|
    ensures Longer(Finish(s, i), Finish(t, i), x) && forall k :: k in s.finishes || k == i ==> k in Finish(s, i).finishes
    decreases |s.outgoing|, 0
  {
    var s1 := Taken(s, i);
    if !s.msgs[i].head.last && s.outgoing != [] {
      LongerAssign(s1.(outgoing := s.outgoing[1..]), Taken(t, i).(outgoing := s.outgoing[1..]), x, s.outgoing[0]);
    }
  }

  lemma {:induction false} StretchedAssign(s: State, t: State, k: nat, x: nat, i: nat)
    requires WellFormed(s) && PendsMore(s, t, k, x) && i < |s.msgs|
    ensures Stretched(Assign(s, i), Assign(t, i), k, x)
    decreases |s.outgoing|, 1
  {
    var step, step' := Flush(s.msgs[i], s.writable), Flush(t.msgs[i], s.writable);
    var s1 := s.(current := Some(i), msgs := s.msgs[i := step.m], sent := s.sent + step.wrote);
    var t1 := t.(current := Some(i), msgs := t.msgs[i := step'.m], sent := t.sent + step'.wrote);
    if i == k && s.writable {
      assert s1.msgs == t1.msgs;
      LongerFinish(s1, t1, x, k);
    } else if i != k && step.m.output == [] && step.m.finished {
      StretchedFinish(s1, t1, k, x, i);
    }
  }

  lemma {:induction false} StretchedFinish(s: State, t: State, k: nat, x: nat, i: nat)
    requires WellFormed(s) && PendsMore(s, t, k, x) && i < |s.msgs| && i != k
    ensures Stretched(Finish(s, i), Finish(t, i), k, x)
    decreases |s.outgoing|, 0
  {
    var s1, t1 := Taken(s, i), Taken(t, i);
    if !s.msgs[i].head.last && s.outgoing != [] {
      StretchedAssign(s1.(outgoing := s.outgoing[1..]), t1.(outgoing := s.outgoing[1..]), k, x, s.outgoing[0]);
    }
  }

  /** Calls on the responses before it do not take the bytes back. */
  lemma StretchedDo(s: State, t: State, k: nat, x: nat, i: nat, call: Call)
    requires WellFormed(s) && WellFormed(t) && Stretched(s, t, k, x) && i < |s.msgs| && i != k
    ensures |t.msgs| == |s.msgs| && Stretched(Do(s, i, call), Do(t, i, call), k, x)
  {
    hide Called, Noted;
    assert t.msgs[i] == s.msgs[i] && Live(t, i) == Live(s, i) && Fires(t, i, call) == Fires(s, i, call);
    var s1, t1 := AfterCall(s, i, call), AfterCall(t, i, call);
    if k in s.finishes {
      assert Longer(s1, t1, x);
      if Fires(s, i, call) {
        LongerFinish(s1, t1, x, i);
      }
    } else {
      assert PendsMore(s1, t1, k, x);
      if Fires(s, i, call) {
        StretchedFinish(s1, t1, k, x, i);
      }
    }
  }

  /** end is called on the responses from the d-th to the one before the k-th. */
  function Ends(d: nat, k: nat): seq<Event>
    decreases k - d
  {
    if d < k then [Use(d, EndCall(None))] + Ends(d + 1, k) else []
  }

  lemma EndsParts(d: nat, k: nat)
    requires d < k
    ensures Ends(d, k) != [] && Ends(d, k)[0] == Use(d, EndCall(None)) && Ends(d, k)[1..] == Ends(d + 1, k)
  {
  }

  lemma {:induction false} EndsStretch(s: State, t: State, d: nat, k: nat, x: nat)
    requires WellFormed(s) && WellFormed(t) && Stretched(s, t, k, x) && d <= k < |s.msgs|
    ensures PoliteRun(s, Ends(d, k)) && PoliteRun(t, Ends(d, k))
    ensures Stretched(Run(s, Ends(d, k)), Run(t, Ends(d, k)), k, x)
    decreases k - d
  {
    hide Do, Stretched;
    if d < k {
      EndsParts(d, k);
      StretchedDo(s, t, k, x, d, EndCall(None));
      EndsStretch(Do(s, d, EndCall(None)), Do(t, d, EndCall(None)), d + 1, k, x);
    }
  }

  predicate SameLogs(s: State, t: State) {
    t.logs == s.logs && |t.msgs| == |s.msgs| && SameHeads(s, t)
  }

  lemma {:induction false} AssignKeepsLogs(s: State, i: nat)
    requires WellFormed(s) && i < |s.msgs|
    ensures SameLogs(s, Assign(s, i))
    decreases |s.outgoing|, 1
  {
    var step := Flush(s.msgs[i], s.writable);
    var s1 := s.(current := Some(i), msgs := s.msgs[i := step.m], sent := s.sent + step.wrote);
    if step.m.output == [] && step.m.finished {
      FinishKeepsLogs(s1, i);
    }
  }

  lemma {:induction false} FinishKeepsLogs(s: State, i: nat)
    requires WellFormed(s) && i < |s.msgs|
    ensures SameLogs(s, Finish(s, i))
    decreases |s.outgoing|, 0
  {
    if !s.msgs[i].head.last && s.outgoing != [] {
      AssignKeepsLogs(Taken(s, i).(outgoing := s.outgoing[1..]), s.outgoing[0]);
    }
  }

  lemma EndCallEnds(s: State, i: nat)
    requires WellFormed(s) && i < |s.msgs|
    ensures var r := Do(s, i, EndCall(None));
      && |r.msgs| == |s.msgs| && SameHeads(s, r) && r.logs[i].ended
      && forall j :: 0 <= j < |s.logs| && s.logs[j].ended ==> r.logs[j].ended
  {
    CalledKeepsHead(s.msgs[i], Live(s, i), EndCall(None));
    hide Called;
    var s1 := AfterCall(s, i, EndCall(None));
    if Fires(s, i, EndCall(None)) {
      FinishKeepsLogs(s1, i);
    }
  }

  lemma {:induction false} EndsEnd(s: State, d: nat, k: nat)
    requires WellFormed(s) && d <= k < |s.msgs|
    ensures var r := Run(s, Ends(d, k));
      && |r.msgs| == |s.msgs| && SameHeads(s, r) && (forall i :: d <= i < k ==> r.logs[i].ended)
      && forall i :: 0 <= i < |s.logs| && s.logs[i].ended ==> r.logs[i].ended
    decreases k - d
  {
    hide Do;
    if d < k {
      EndsParts(d, k);
      EndCallEnds(s, d);
      EndsEnd(Do(s, d, EndCall(None)), d + 1, k);
    }
  }

  /** What a write after end leaves pending. */
  lemma ImpoliteCall(s: State, k: nat, call: Call) returns (x: nat)
    requires Inv(s) && k < |s.msgs| && !Polite(s, k, call)
    ensures s.writable && |s.finishes| < k && x > 0 && PendsMore(s, Do(s, k, call), k, x)
  {
    assert Waiting(s, k);
    QuietCall(s, k, call);
    var m, log, chunk := s.msgs[k], s.logs[k], call.chunk;
    CalledIsWrite(m, call);
    FinishedPends(m, log);
    WriteAdds(m, false, chunk);
    hide Called, Write, Holds, Chunk;
    var step := Write(m, false, chunk);
    assert "" + Pending(step.m.output) == Pending(m.output) + "" + if m.head.chunked then Chunk(chunk.bytes) else chunk.bytes;
    assert s.logs[k := log] == s.logs;
    ChunkNotEmpty(chunk.bytes);
    return |if m.head.chunked then Chunk(chunk.bytes) else chunk.bytes|;
  }

  lemma ChunkNotEmpty(data: Bytes)
    ensures Chunk(data) != ""
  {
  }

  /** Such a write shows when all responses before have ended: more is on the socket than the responses amount to. */
  lemma ImpoliteShows(s: State, k: nat, call: Call)
    requires Inv(s) && k < |s.msgs| && !Polite(s, k, call)
    ensures var t, ends := Do(s, k, call), Ends(|s.finishes|, k);
      PoliteRun(t, ends) && !InOrder(Run(t, ends))
  {
    var t, d, ends := Do(s, k, call), |s.finishes|, Ends(|s.finishes|, k);
    var x := ImpoliteCall(s, k, call);
    EndsStretch(s, t, d, k, x);
    RunInv(s, ends);
    EndsEnd(s, d, k);
    var s', t' := Run(s, ends), Run(t, ends);
    AllEnded(s, s', d, k);
    InvInOrder(s');
    WholesStay(s', t', |s'.finishes|);
  }

  lemma AllEnded(s: State, s': State, d: nat, k: nat)
    requires Inv(s) && Inv(s') && d == |s.finishes| < k < |s.msgs| == |s'.msgs| && SameHeads(s, s')
    requires MayBeSent(s, k) && s.logs[k].ended
    requires forall i :: d <= i < k ==> s'.logs[i].ended
    requires forall i :: 0 <= i < |s.logs| && s.logs[i].ended ==> s'.logs[i].ended
    ensures k in s'.finishes
  {
    MayStay(s, s', k);
    FinishedWhen(s', k);
    assert s'.finishes[k] == k;
  }

  /**
   * The socket stays in order, whatever polite calls and requests come next, if and only if the call does not write to a response
   * that has ended, waits, and will be sent.
   */
  lemma OrderKept(s: State, k: nat, call: Call)
    requires Inv(s) && k < |s.msgs|
    ensures Polite(s, k, call) <==>
      forall events :: PoliteRun(Do(s, k, call), events) ==> InOrder(Run(Do(s, k, call), events))
  {
    var t := Do(s, k, call);
    if Polite(s, k, call) {
      DoInv(s, k, call);
      forall events | PoliteRun(t, events) ensures InOrder(Run(t, events)) {
        RunInv(t, events);
        InvInOrder(Run(t, events));
      }
    } else {
      ImpoliteShows(s, k, call);
    }
  }

  /** On a connection that the server has closed every call is harmless. */
  lemma ClosedIsPolite(s: State, k: nat, call: Call)
    requires Inv(s) && k < |s.msgs| && !s.writable
    ensures Polite(s, k, call)
  {
  }

  /** A run, one event further. */
  lemma RunMore(s: State, e: Event, events: seq<Event>)
    requires WellFormed(s)
    ensures Run(s, [e] + events) == Run(Next(s, e), events)
  {
    assert ([e] + events)[1..] == events;
  }

  lemma TwoRequests(first: Head, second: Head)
    requires first.text != "" && second.text != "" && !first.last
    ensures var s := Next(Next(INITIAL, Request(first)), Request(second));
      Inv(s) && |s.msgs| == 2 && s.msgs[0].head == first && s.msgs[1].head == second && s.finishes == [] && s.current == Some(0)
  {
    InitialInv();
    IncomingInv(INITIAL, first);
    IncomingInv(Next(INITIAL, Request(first)), second);
  }

  /** The second of two responses ends first. */
  lemma SecondEnds(s: State)
    requires WellFormed(s) && Inv(s) && |s.msgs| == 2 && !s.msgs[0].head.last && s.finishes == [] && s.current == Some(0)
    ensures var t := Next(s, Use(1, EndCall(None)));
      Inv(t) && |t.msgs| == 2 && SameHeads(s, t) && t.logs[1].ended && t.finishes == [] && MayBeSent(t, 1)
  {
    hide Inv, Do;
    DoInv(s, 1, EndCall(None));
    EndCallEnds(s, 1);
    EndIsQuiet(s);
    MayStay(s, Do(s, 1, EndCall(None)), 1);
  }

  lemma EndIsQuiet(s: State)
    requires WellFormed(s) && |s.msgs| == 2 && s.current == Some(0)
    ensures Do(s, 1, EndCall(None)).finishes == s.finishes
  {
    hide Called;
  }

  /** Two requests; the second is answered first, and written to once more. */
  lemma WriteWhileWaiting(first: Head, second: Head, chunk: Data)
    requires first.text != "" && second.text != "" && !first.last && second.hasBody && chunk.bytes != ""
    ensures !InOrder(Run(INITIAL, [Request(first)] + ([Request(second)] + ([Use(1, EndCall(None))]
                                  + ([Use(1, WriteCall(chunk))] + [Use(0, EndCall(None))])))))
  {
    hide Inv, Next, Run, InOrder, SameHeads, MayBeSent;
    var last := [Use(0, EndCall(None))];
    var write := [Use(1, WriteCall(chunk))] + last;
    var end := [Use(1, EndCall(None))] + write;
    var s1 := Next(INITIAL, Request(first));
    var s2 := Next(s1, Request(second));
    var s3 := Next(s2, Use(1, EndCall(None)));
    TwoRequests(first, second);
    SecondEnds(s2);
    RunMore(INITIAL, Request(first), [Request(second)] + end);
    RunMore(s1, Request(second), end);
    RunMore(s2, Use(1, EndCall(None)), write);
    RunMore(s3, Use(1, WriteCall(chunk)), last);
    SecondWrites(s2, s3, chunk);
    ImpoliteShows(s3, 1, WriteCall(chunk));
    UseIsDo(s3, 1, WriteCall(chunk));
    EndsOne();
  }

  lemma EndsOne()
    ensures Ends(0, 1) == [Use(0, EndCall(None))]
  {
  }

  lemma SecondWrites(s: State, t: State, chunk: Data)
    requires WellFormed(s) && WellFormed(t) && |s.msgs| == |t.msgs| == 2 && SameHeads(s, t) && MayBeSent(t, 1)
    requires t.logs[1].ended && t.finishes == [] && s.msgs[1].head.hasBody && chunk.bytes != ""
    ensures !Polite(t, 1, WriteCall(chunk))
  {
  }

  lemma UseIsDo(s: State, k: nat, call: Call)
    requires WellFormed(s) && k < |s.msgs|
    ensures Next(s, Use(k, call)) == Do(s, k, call)
  {
  }

  // ---------- the other end of the connection ----------

  datatype Reply = Reply(body: Bytes, trailer: seq<Bytes>)

  /** How a client finds the end of a reply: the last chunk, a count (of none, if the reply has no body), or the connection's end. */
  datatype Framing = Coded | Counted(count: nat) | UntilClose

  /** What a client knows of a reply beforehand, and from its header. */
  datatype Expected = Expected(header: Bytes, framing: Framing)

  function ReceiveOne(e: Expected, s: Bytes): Option<(Reply, Bytes)> {
    if !(e.header <= s) then None
    else
      var rest := s[|e.header|..];
      match e.framing
      case Coded =>
        (match Dechunk(rest)
         case None => None
         case Some(r) => Some((Reply(r.body, r.trailer), r.rest)))
      case Counted(n) => if n <= |rest| then Some((Reply(rest[..n], []), rest[n..])) else None
      case UntilClose => Some((Reply(rest, []), ""))
  }

  /** A client reads that many replies off the bytes, and what follows them. */
  function Receive(expected: seq<Expected>, s: Bytes): Option<(seq<Reply>, Bytes)> {
    if expected == [] then Some(([], s))
    else
      match ReceiveOne(expected[0], s)
      case None => None
      case Some((reply, rest)) =>
        match Receive(expected[1..], rest)
        case None => None
        case Some((replies, rest)) => Some(([reply] + replies, rest))
  }

  lemma {:induction false} ReceiveMore(expected: seq<Expected>, e: Expected, s: Bytes)
    requires Receive(expected, s).Some? && ReceiveOne(e, Receive(expected, s).value.1).Some?
    ensures var (replies, rest) := Receive(expected, s).value;
      var (reply, after) := ReceiveOne(e, rest).value;
      Receive(expected + [e], s) == Some((replies + [reply], after))
  {
    hide ReceiveOne;
    if expected == [] {
      assert expected + [e] == [e] && [e][1..] == [];
      var (reply, after) := ReceiveOne(e, s).value;
      assert [reply] + [] == [] + [reply];
    } else {
      var (first, rest) := ReceiveOne(expected[0], s).value;
      ReceiveMore(expected[1..], e, rest);
      var (replies, rest') := Receive(expected[1..], rest).value;
      var (reply, after) := ReceiveOne(e, rest').value;
      assert (expected + [e])[1..] == expected[1..] + [e];
      assert [first] + (replies + [reply]) == [first] + replies + [reply];
    }
  }

  function Expects(s: State, framings: seq<Framing>, d: nat): seq<Expected>
    requires d <= |s.msgs| && d <= |framings|
  {
    if d == 0 then [] else Expects(s, framings, d - 1) + [Expected(s.msgs[d - 1].head.text, framings[d - 1])]
  }

  /** What the handler gave response k. */
  function ReplyOf(head: Head, log: Log): Reply {
    Reply(Flat(log.body), if head.chunked && head.hasBody then Lines(log.trailer) else [])
  }

  function Replies(s: State, d: nat): seq<Reply>
    requires d <= |s.logs| && d <= |s.msgs|
  {
    if d == 0 then [] else Replies(s, d - 1) + [ReplyOf(s.msgs[d - 1].head, s.logs[d - 1])]
  }

  /**
   * The client looks for the reply's end where section 4.4 of RFC 2616 has it: after the header of a reply without a body, whatever
   * the header says; after the last chunk, if the header says chunked; and else where the header or the connection ends the body.
   */
  predicate Chosen(framing: Framing, head: Head) {
    if head.hasBody then framing.Coded? <==> head.chunked else framing == Counted(0)
  }

  /**
   * And it is there. A trailer's fields are one line each, the count is that of the bytes written, the server closes the connection
   * after a reply without either, and the header of a reply without a body does not say chunked.
   */
  predicate Fits(framing: Framing, head: Head, log: Log) {
    && Chosen(framing, head)
    && match framing
       case Coded => OneLineEach(log.trailer)
       case Counted(n) => !head.chunked && n == |Flat(log.body)|
       case UntilClose => head.last
  }

  /**
   * A reply that a client counts is received if and only if it fits: the count is right, and for a reply without a body the header
   * does not say chunked, in which case there is a last chunk that no client expects.
   */
  lemma CountedReceived(s: State, k: nat, n: nat, rest: Bytes)
    requires Inv(s) && k < |s.finishes| && Chosen(Counted(n), s.msgs[k].head)
    ensures var head, log := s.msgs[k].head, s.logs[k];
      ReceiveOne(Expected(head.text, Counted(n)), Whole(s, k) + rest) == Some((ReplyOf(head, log), rest)) <==> Fits(Counted(n), head, log)
  {
    var head, log := s.msgs[k].head, s.logs[k];
    assert Ended(s.msgs[k], log);
    hide Inv, Chunks, NoneEmpty;
    var coded := if head.chunked then Chunks(log.body) + LastChunk(log.trailer) else Flat(log.body);
    Assoc(head.text, Chunks(log.body), LastChunk(log.trailer));
    assert Whole(s, k) == head.text + coded;
    Assoc(head.text, coded, rest);
    var bytes := Whole(s, k) + rest;
    assert bytes[|head.text|..] == coded + rest;
    if n == |coded| {
      assert (coded + rest)[..n] == coded && (coded + rest)[n..] == rest;
    }
  }

  lemma ReceiveWhole(s: State, k: nat, framing: Framing, rest: Bytes)
    requires Inv(s) && k < |s.finishes| && Fits(framing, s.msgs[k].head, s.logs[k]) && (framing.UntilClose? ==> rest == "")
    ensures ReceiveOne(Expected(s.msgs[k].head.text, framing), Whole(s, k) + rest) == Some((ReplyOf(s.msgs[k].head, s.logs[k]), rest))
  {
    var head, log := s.msgs[k].head, s.logs[k];
    assert Ended(s.msgs[k], log);
    if framing.Counted? {
      CountedReceived(s, k, framing.count, rest);
    }
    hide Inv, Dechunk, Chunks, LastChunk, NoneEmpty;
    var coded := if head.chunked then Chunks(log.body) + LastChunk(log.trailer) else Flat(log.body);
    Assoc(head.text, Chunks(log.body), LastChunk(log.trailer));
    assert Whole(s, k) == head.text + coded;
    Assoc(head.text, coded, rest);
    var bytes := Whole(s, k) + rest;
    assert bytes[|head.text|..] == coded + rest;
    if framing.Coded? {
      DechunkBody(log.body, log.trailer, rest);
    } else if framing.UntilClose? {
      assert coded + rest == coded;
    }
  }

  lemma {:induction false} ReceiveWholes(s: State, framings: seq<Framing>, d: nat, rest: Bytes)
    requires Inv(s) && d <= |s.finishes| && d <= |framings|
    requires forall k :: 0 <= k < d ==> Fits(framings[k], s.msgs[k].head, s.logs[k])
    requires d > 0 && framings[d - 1].UntilClose? ==> rest == ""
    ensures Receive(Expects(s, framings, d), Wholes(s, d) + rest) == Some((Replies(s, d), rest))
  {
    hide Receive, ReceiveOne;
    if d == 0 {
      assert Wholes(s, 0) + rest == rest;
      ReceiveNone(rest);
    } else {
      var k := d - 1;
      assert k > 0 ==> !s.msgs[k - 1].head.last;
      ReceiveWholes(s, framings, k, Whole(s, k) + rest);
      ReceiveWhole(s, k, framings[k], rest);
      ReceiveMore(Expects(s, framings, k), Expected(s.msgs[k].head.text, framings[k]), Wholes(s, k) + (Whole(s, k) + rest));
      Assoc(Wholes(s, k), Whole(s, k), rest);
    }
  }

  lemma ReceiveNone(s: Bytes)
    ensures Receive([], s) == Some(([], s))
  {
  }

  /**
   * End to end: off the bytes on the socket a client reads, in the order of its requests, the body and the trailer that each
   * handler gave its response, whatever else was going on; what remains is the beginning of the next response.
   */
  lemma Delivered(s: State, framings: seq<Framing>)
    requires Inv(s) && |framings| == |s.finishes|
    requires forall k :: 0 <= k < |s.finishes| ==> Fits(framings[k], s.msgs[k].head, s.logs[k])
    ensures var d := |s.finishes|;
      Receive(Expects(s, framings, d), s.sent) == Some((Replies(s, d), if s.writable && d < |s.msgs| then Whole(s, d) else ""))
  {
    var d := |s.finishes|;
    var rest := if s.writable && d < |s.msgs| then Whole(s, d) else "";
    assert d > 0 && framings[d - 1].UntilClose? ==> s.msgs[d - 1].head.last && !s.writable;
    ReceiveWholes(s, framings, d, rest);
    assert Wholes(s, d) + "" == Wholes(s, d);
  }

  /** A reply without a body ends, in its turn. */
  lemma BodylessEnds(s: State, head: Head)
    requires Inv(s) && s.writable && |s.finishes| == |s.msgs| && head.text != "" && !head.hasBody && !head.last
    ensures var t := Next(Next(s, Request(head)), Use(|s.msgs|, EndCall(None)));
      && Inv(t) && t.writable && |t.finishes| == |t.msgs| == |s.msgs| + 1 && SameHeads(s, t) && t.msgs[|s.msgs|].head == head
      && t.logs[|s.msgs|].ended
  {
    var n, s1 := |s.msgs|, Next(s, Request(head));
    IncomingInv(s, head);
    RequestIsLast(s, head);
    hide Inv, Do;
    var t := Next(s1, Use(n, EndCall(None)));
    UseIsDo(s1, n, EndCall(None));
    DoInv(s1, n, EndCall(None));
    EndCallEnds(s1, n);
    AllFinished(s, s1, t, n);
  }

  lemma RequestIsLast(s: State, head: Head)
    requires WellFormed(s) && Inv(s) && s.writable && |s.finishes| == |s.msgs| && head.text != ""
    ensures var t := Next(s, Request(head));
      |t.msgs| == |s.msgs| + 1 && SameHeads(s, t) && t.msgs[|s.msgs|].head == head && SameLogsUpTo(s, t)
  {
    AssignKeepsLogs(Arrived(s, head), |s.msgs|);
  }

  predicate SameLogsUpTo(s: State, t: State) {
    |s.logs| <= |t.logs| && forall i :: 0 <= i < |s.logs| ==> t.logs[i] == s.logs[i]
  }

  lemma AllFinished(s: State, s1: State, t: State, n: nat)
    requires Inv(s) && Inv(t) && s.writable && |s.finishes| == |s.msgs| == n && |s1.logs| == |s1.msgs| == |t.msgs| == n + 1
    requires SameHeads(s, s1) && SameHeads(s1, t) && SameLogsUpTo(s, s1) && !t.msgs[n].head.last && t.logs[n].ended
    requires forall j :: 0 <= j < |s1.logs| && s1.logs[j].ended ==> t.logs[j].ended
    ensures t.writable && |t.finishes| == n + 1 && SameHeads(s, t)
  {
    forall i | 0 <= i < n ensures t.logs[i].ended && !t.msgs[i].head.last {
      assert Ended(s.msgs[i], s.logs[i]) && s1.logs[i] == s.logs[i] && s1.msgs[i].head == s.msgs[i].head;
    }
    FinishedWhen(t, n);
  }

  /**
   * A reply to HEAD, or with status 204 or 304, whose handler set Transfer-Encoding: chunked: its last chunk is where the client looks
   * for the next reply.
   */
  lemma BodylessChunkedIsLost(text: Bytes, next: Bytes)
    requires text != "" && next != "" && next[0] == 'H'
    ensures var s1 := Next(Next(INITIAL, Request(Head(text, true, false, false))), Use(0, EndCall(None)));
      var s := Next(Next(s1, Request(Head(next, false, false, false))), Use(1, EndCall(None)));
      && Inv(s) && |s.finishes| == |s.msgs| == 2
      && Receive([Expected(text, Counted(0)), Expected(next, Counted(0))], s.sent) == None
  {
    var first, second := Head(text, true, false, false), Head(next, false, false, false);
    hide Inv, Next;
    InitialInv();
    BodylessEnds(INITIAL, first);
    var s1 := Next(Next(INITIAL, Request(first)), Use(0, EndCall(None)));
    BodylessEnds(s1, second);
    var s := Next(Next(s1, Request(second)), Use(1, EndCall(None)));
    LostBytes(s, text, next);
  }

  lemma LostBytes(s: State, text: Bytes, next: Bytes)
    requires Inv(s) && s.writable && |s.finishes| == |s.msgs| == 2 && next != "" && next[0] == 'H'
    requires s.msgs[0].head == Head(text, true, false, false) && s.msgs[1].head == Head(next, false, false, false)
    ensures Receive([Expected(text, Counted(0)), Expected(next, Counted(0))], s.sent) == None
  {
    assert Ended(s.msgs[0], s.logs[0]) && Ended(s.msgs[1], s.logs[1]);
    var last := LastChunk(s.logs[0].trailer);
    assert Whole(s, 0) == text + "" + last;
    assert Wholes(s, 1) == "" + Whole(s, 0);
    assert s.sent == text + (last + Whole(s, 1));
    var rest := s.sent[|text|..];
    assert rest == last + Whole(s, 1);
    assert rest[0] == '0' && !(next <= rest);
    var e0, e1 := Expected(text, Counted(0)), Expected(next, Counted(0));
    assert rest[..0] == "" && rest[0..] == rest;
    assert [e0, e1][1..] == [e1];
    assert ReceiveOne(e1, rest) == None;
    assert Receive([e1], rest) == None;
  }
}
