/** http.js itself: responses and the connection that queues them, as objects, held to the functions of the specification. */
module HttpConnection {
  import opened Results
  import opened Chunked
  import S = OutgoingSpec
  import P = PipelineSpec

  class Socket {
    var sent: Bytes
    var writable: bool
    var httpMessage: ServerResponse?

    constructor ()
      ensures sent == "" && writable && httpMessage == null
    {
      sent, writable, httpMessage := "", true, null;
    }

    method Write(data: Bytes)
      modifies this`sent
      ensures sent == old(sent) + data
    {
      sent := sent + data;
    }
  }

  /** OutgoingMessage and ServerResponse; socket and connection are always set together, and are one field here. */
  class ServerResponse {
    const head: S.Head
    var headerSent: bool
    var trailer: Bytes
    var output: seq<S.Data>
    var finished: bool
    var connection: Socket?

    constructor (head: S.Head)
      ensures Value() == P.NewMessage(head) && connection == null
    {
      this.head := head;
      headerSent, trailer, output, finished, connection := false, "", [], false, null;
    }

    ghost function Value(): S.Message
      reads this
    {
      S.Message(head, headerSent, trailer, output, finished)
    }

    ghost function Sockets(): set<Socket>
      reads this
    {
      if connection == null then {} else {connection}
    }

    /** It is this response's turn on the socket, if it has one. */
    predicate Current()
      reads this, connection
    {
      connection != null && connection.httpMessage == this
    }

    predicate Live()
      reads this, connection
    {
      Current() && connection.writable
    }

    method Buffer(data: S.Data)
      modifies this`output
      ensures output == S.Buffered(old(output), data)
    {
      if |data.bytes| == 0 {
        return;
      }
      var length := |output|;
      if length == 0 || data.Binary? {
        output := output + [data];
        return;
      }
      var last := output[length - 1];
      if last.Text? && (data.encoding.None? || last.encoding == data.encoding) {
        output := output[length - 1 := S.Text(last.bytes + data.bytes, last.encoding)];
        return;
      }
      output := output + [data];
    }

    method WriteRaw(data: S.Data)
      modifies this`output, Sockets()`sent
      ensures var step := S.WriteRaw(old(Value()), old(Live()), data);
        Value() == step.m && (connection != null ==> connection.sent == old(connection.sent) + step.wrote)
    {
      if Live() {
        while |output| > 0
          invariant connection.sent + S.Pending(output) == old(connection.sent) + S.Pending(old(output))
        {
          var c := output[0];
          output := output[1..];
          label before:
          connection.Write(c.bytes);
          Assoc(old@before(connection.sent), c.bytes, S.Pending(output));
        }
        assert connection.sent == connection.sent + S.Pending(output);
        Assoc(old(connection.sent), S.Pending(old(output)), data.bytes);
        connection.Write(data.bytes);
      } else {
        Buffer(data);
        assert connection != null ==> connection.sent + "" == connection.sent;
      }
    }

    method Send(data: S.Data)
      modifies this`output, this`headerSent, Sockets()`sent
      ensures var step := S.Send(old(Value()), old(Live()), data);
        Value() == step.m && (connection != null ==> connection.sent == old(connection.sent) + step.wrote)
    {
      var rest := data;
      if !headerSent {
        match data {
          case Text(bytes, encoding) => rest := S.Text(head.text + bytes, encoding);
          case Binary(_) => output := [S.Text(head.text, Some("ascii"))] + output;
        }
        headerSent := true;
      }
      WriteRaw(rest);
    }

    method Write(chunk: S.Data)
      modifies this`output, this`headerSent, Sockets()`sent
      ensures var step := S.Write(old(Value()), old(Live()), chunk);
        Value() == step.m && (connection != null ==> connection.sent == old(connection.sent) + step.wrote)
    {
      hide S.Send;
      if !head.hasBody || |chunk.bytes| == 0 {
        assert connection != null ==> connection.sent + "" == connection.sent;
        return;
      }
      if head.chunked {
        match chunk {
          case Text(bytes, encoding) =>
            Send(S.Text(Hex(|bytes|) + CRLF + bytes + CRLF, encoding));
          case Binary(bytes) =>
            Send(S.Text(Hex(|bytes|) + CRLF, None));
            Send(chunk);
            Send(S.Text(CRLF, None));
        }
      } else {
        Send(chunk);
      }
    }

    method AddTrailers(fields: seq<Field>)
      modifies this`trailer
      ensures trailer == Trailer(fields)
    {
      trailer := "";
      for i := 0 to |fields|
        invariant trailer + Trailer(fields[i..]) == Trailer(fields)
      {
        ghost var before := trailer;
        trailer := trailer + fields[i].name + ": " + fields[i].value + CRLF;
        assert fields[i..][1..] == fields[i + 1..];
        assert trailer + Trailer(fields[i + 1..]) == before + (fields[i].Line() + CRLF + Trailer(fields[i + 1..]));
      }
      assert fields[|fields|..] == [];
      assert trailer + "" == trailer;
    }

    /** finish: the message has ended and everything is sent, in its turn; the listeners are the caller's to run. */
    method End(data: Option<S.Data>) returns (finish: bool)
      requires head.text != ""
      requires connection == null && headerSent && !finished ==> output != []
      modifies this`output, this`headerSent, this`finished, Sockets()`sent
      ensures var step := S.End(old(Value()), old(Live()), data);
        Value() == step.m && (connection != null ==> connection.sent == old(connection.sent) + step.wrote)
      ensures finish <==> !old(finished) && output == [] && Current()
    {
      if finished {
        assert connection != null ==> connection.sent + "" == connection.sent;
        return false;
      }
      var given := if head.hasBody && data.Some? && !(data.value.Text? && |data.value.bytes| == 0) then data else None;
      assert given == S.Given(head, data);
      var hot := !headerSent && given.Some? && given.value.Text? && |given.value.bytes| > 0 && |output| == 0 && Live();
      if hot {
        var bytes := given.value.bytes;
        if head.chunked {
          connection.Write(head.text + Hex(|bytes|) + CRLF + bytes + "\r\n0\r\n" + trailer + "\r\n");
        } else {
          connection.Write(head.text + bytes);
        }
        headerSent, finished := true, true;
      } else {
        EndSlowly(given);
      }
      finish := |output| == 0 && connection.httpMessage == this;
    }

    /** What end does unless everything goes out in one write. */
    method EndSlowly(data: Option<S.Data>)
      requires head.text != ""
      requires connection == null && headerSent ==> output != []
      modifies this`output, this`headerSent, this`finished, Sockets()`sent
      ensures var step := S.EndGeneral(old(Value()), old(Live()), data);
        Value() == step.m && (connection != null ==> connection.sent == old(connection.sent) + step.wrote)
      ensures output == [] ==> connection != null
    {
      if connection == null {
        EndPends(Value(), data);
      }
      hide S.SendEnd, S.Write;
      if data.Some? {
        Write(data.value);
        SendEnd();
        if connection != null {
          ghost var body := S.Write(old(Value()), old(Live()), data.value);
          Assoc(old(connection.sent), body.wrote, S.SendEnd(body.m, Live()).wrote);
        }
      } else {
        SendEnd();
        assert "" + S.SendEnd(old(Value()), Live()).wrote == S.SendEnd(old(Value()), Live()).wrote;
      }
    }

    method SendEnd()
      modifies this`output, this`headerSent, this`finished, Sockets()`sent
      ensures var step := S.SendEnd(old(Value()), old(Live()));
        Value() == step.m && (connection != null ==> connection.sent == old(connection.sent) + step.wrote)
    {
      hide S.Send;
      if head.chunked {
        Send(S.Text("0\r\n" + trailer + "\r\n", None));
      } else {
        Send(S.Text("", None));
      }
      finished := true;
    }

    method Flush() returns (finish: bool)
      requires connection != null
      modifies this`output, connection`sent
      ensures var step := S.Flush(old(Value()), connection.writable);
        Value() == step.m && connection.sent == old(connection.sent) + step.wrote
      ensures finish <==> output == [] && finished
    {
      while |output| > 0
        invariant connection.sent + S.Pending(output) == old(connection.sent) + S.Pending(old(output))
        invariant !connection.writable ==> output == old(output) && connection.sent == old(connection.sent)
      {
        if !connection.writable {
          assert connection.sent + "" == connection.sent;
          return false;
        }
        var c := output[0];
        output := output[1..];
        label before:
        connection.Write(c.bytes);
        Assoc(old@before(connection.sent), c.bytes, S.Pending(output));
      }
      assert connection.sent + "" == connection.sent;
      return finished;
    }

    method AssignSocket(socket: Socket) returns (finish: bool)
      requires socket.httpMessage == null
      modifies this`output, this`connection, socket`httpMessage, socket`sent
      ensures connection == socket && socket.httpMessage == this
      ensures var step := S.Flush(old(Value()), socket.writable);
        Value() == step.m && socket.sent == old(socket.sent) + step.wrote
      ensures finish <==> output == [] && finished
    {
      socket.httpMessage := this;
      connection := socket;
      finish := Flush();
    }

    method DetachSocket(socket: Socket)
      requires socket.httpMessage == this
      modifies this`connection, socket`httpMessage
      ensures connection == null && socket.httpMessage == null
    {
      socket.httpMessage := null;
      connection := null;
    }
  }

  /** Without a connection the end of a message stays pending. */
  lemma EndPends(m: S.Message, data: Option<S.Data>)
    requires m.head.text != "" && (m.headerSent ==> m.output != [])
    ensures S.EndGeneral(m, false, data).m.output != []
  {
  }

  predicate Numbered(q: seq<ServerResponse>, ids: seq<nat>, all: seq<ServerResponse>) {
    |q| == |ids| && forall i :: 0 <= i < |q| ==> ids[i] < |all| && q[i] == all[ids[i]]
  }

  /** connectionListener's queues. An element of incoming is the response to the request the source has there. */
  class Connection {
    const socket: Socket
    var incoming: seq<ServerResponse>
    var outgoing: seq<ServerResponse>
    ghost var all: seq<ServerResponse>
    ghost var v: P.State

    /** The objects are those of the abstract state. */
    ghost predicate Rep()
      reads this, socket, all
    {
      && P.WellFormed(v) && |all| == |v.msgs|
      && (forall i, j :: 0 <= i < j < |all| ==> all[i] != all[j])
      && (forall k :: 0 <= k < |all| ==> all[k].Value() == v.msgs[k])
      && (forall k :: 0 <= k < |all| ==> all[k].connection == if v.current == Some(k) then socket else null)
      && socket.sent == v.sent && socket.writable == v.writable
      && (v.current.Some? ==> v.current.value < |all|)
      && socket.httpMessage == (if v.current.Some? then all[v.current.value] else null)
      && Numbered(incoming, v.incoming, all) && Numbered(outgoing, v.outgoing, all)
    }

    ghost predicate Valid()
      reads this, socket, all
    {
      Rep() && P.Inv(v)
    }

    constructor ()
      ensures Valid() && v == P.INITIAL && fresh(socket)
    {
      socket := new Socket();
      incoming, outgoing, all, v := [], [], [], P.INITIAL;
    }

    /** The finished response leaves the queue and the socket. */
    method Retire(ghost k: nat, res: ServerResponse)
      requires Rep() && P.Complete(v, k) && res == all[k]
      modifies this`incoming, this`v, socket`httpMessage, res`connection
      ensures Rep() && v == P.Taken(old(v), k)
    {
      assert incoming != [] && incoming[0] == res;
      incoming := incoming[1..];
      res.DetachSocket(socket);
      v := P.Taken(v, k);
    }

    /** The first of the responses that wait leaves their queue. */
    method Dequeue() returns (m: ServerResponse)
      requires Rep() && |outgoing| > 0
      modifies this`outgoing, this`v
      ensures Rep() && |old(v).outgoing| > 0 && v == old(v).(outgoing := old(v).outgoing[1..]) && outgoing == old(outgoing)[1..]
      ensures m == all[old(v).outgoing[0]]
    {
      m := outgoing[0];
      outgoing := outgoing[1..];
      v := v.(outgoing := v.outgoing[1..]);
    }

    /** The finish listener. */
    method Finish(ghost k: nat, res: ServerResponse)
      requires Rep() && P.Complete(v, k) && res == all[k]
      modifies this`incoming, this`outgoing, this`v, socket, all
      ensures Rep() && all == old(all) && v == P.Finish(old(v), k)
      decreases |outgoing|, 0
    {
      hide P.Complete, P.Ready, P.Inv;
      P.CompleteIsCurrent(v, k);
      Retire(k, res);
      if res.head.last {
        socket.writable := false;
        v := v.(writable := false);
      } else if |outgoing| > 0 {
        P.NextReady(old(v), k);
        var m := Dequeue();
        AssignSocket(k + 1, m);
      }
    }

    method AssignSocket(ghost k: nat, res: ServerResponse)
      requires Rep() && v.current == None && k < |all| && res == all[k]
      requires if v.writable then P.Ready(v, k) else !v.msgs[k].finished
      modifies this`incoming, this`outgoing, this`v, socket, all
      ensures Rep() && all == old(all) && v == P.Assign(old(v), k)
      decreases |outgoing|, 1
    {
      hide P.Complete, P.Inv, P.Finish, P.Answered, P.AllWait, P.Wholes;
      ghost var step := S.Flush(v.msgs[k], v.writable);
      var finish := res.AssignSocket(socket);
      v := v.(current := Some(k), msgs := v.msgs[k := step.m], sent := v.sent + step.wrote);
      if finish {
        P.Flushed(old(v), k);
        Finish(k, res);
      }
    }

    /** onIncoming: a request has been read. */
    method OnIncoming(head: S.Head) returns (res: ServerResponse)
      requires Valid() && head.text != ""
      modifies this`incoming, this`outgoing, this`v, this`all, socket, all
      ensures Valid() && fresh(res) && all == old(all) + [res] && v == P.Incoming(old(v), head)
    {
      hide P.Inv, P.Ready, P.Assign, P.WellFormed, Numbered;
      P.IncomingInv(v, head);
      ghost var k := |all|;
      if socket.httpMessage == null {
        P.ArrivedReady(v, head);
      }
      res := new ServerResponse(head);
      Accept(res);
      if socket.httpMessage != null {
        Queue(k, res);
      } else {
        AssignSocket(k, res);
      }
    }

    method Queue(ghost k: nat, res: ServerResponse)
      requires Rep() && k < |all| && res == all[k]
      modifies this`outgoing, this`v
      ensures Rep() && v == old(v).(outgoing := old(v).outgoing + [k])
    {
      outgoing := outgoing + [res];
      v := v.(outgoing := v.outgoing + [k]);
    }

    /** The new response is known, and has no place yet. */
    method Accept(res: ServerResponse)
      requires Rep() && res !in all && res.connection == null && res.Value() == P.NewMessage(res.head)
      modifies this`incoming, this`v, this`all
      ensures Rep() && all == old(all) + [res] && v == P.Arrived(old(v), res.head)
    {
      v := P.Arrived(v, res.head);
      all := all + [res];
      incoming := incoming + [res];
    }

    /** A handler calls write. */
    method Write(ghost k: nat, res: ServerResponse, chunk: S.Data)
      requires Valid() && k < |all| && res == all[k]
      modifies this`v, socket`sent, res`output, res`headerSent
      ensures Rep() && v == P.Do(old(v), k, P.WriteCall(chunk)) && (Valid() <==> P.Polite(old(v), k, P.WriteCall(chunk)))
    {
      hide P.Inv, S.Write, P.Noted, P.Polite, P.AfterCall, P.WellFormed, Numbered;
      ghost var call := P.WriteCall(chunk);
      P.DoInv(v, k, call);
      P.AfterCallParts(v, k, call);
      P.NotLive(v, k, call);
      res.Write(chunk);
      v := P.AfterCall(v, k, call);
    }

    /** A handler calls addTrailers. */
    method AddTrailers(ghost k: nat, res: ServerResponse, fields: seq<Field>)
      requires Valid() && k < |all| && res == all[k]
      modifies this`v, res`trailer
      ensures Valid() && v == P.Do(old(v), k, P.TrailersCall(fields))
    {
      hide P.Inv, P.AfterCall, P.WellFormed, Numbered;
      P.DoInv(v, k, P.TrailersCall(fields));
      P.AfterCallParts(v, k, P.TrailersCall(fields));
      res.AddTrailers(fields);
      assert v.sent + "" == v.sent;
      v := P.AfterCall(v, k, P.TrailersCall(fields));
    }

    /** A handler calls end, which may finish this response and those waiting behind it. */
    method End(ghost k: nat, res: ServerResponse, data: Option<S.Data>)
      requires Valid() && k < |all| && res == all[k]
      modifies this`incoming, this`outgoing, this`v, socket, all
      ensures Valid() && all == old(all) && v == P.Do(old(v), k, P.EndCall(data))
    {
      P.DoInv(v, k, P.EndCall(data));
      var finish := EndOnly(k, res, data);
      if finish {
        P.EndFires(old(v), k, data);
        Finish(k, res);
      }
    }

    method EndOnly(ghost k: nat, res: ServerResponse, data: Option<S.Data>) returns (finish: bool)
      requires Valid() && k < |all| && res == all[k]
      modifies this`v, socket`sent, res`output, res`headerSent, res`finished
      ensures Rep() && v == P.AfterCall(old(v), k, P.EndCall(data))
      ensures finish <==> P.Fires(old(v), k, P.EndCall(data))
    {
      hide P.Inv, S.End, P.Noted, P.AfterCall, P.WellFormed, Numbered;
      ghost var call := P.EndCall(data);
      P.EndMay(v, k);
      P.AfterCallParts(v, k, call);
      P.NotLive(v, k, call);
      finish := res.End(data);
      v := P.AfterCall(v, k, call);
    }
  }
}
