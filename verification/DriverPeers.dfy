/** The driver's client and server, as objects held to the functions of DriverProtocol. */
module DriverPeers {
  import opened Results
  import opened Text
  import opened Framing
  import P = DriverProtocol

  /** Objects before a chunk, and its pieces. */
  lemma FeedNext<T>(c: Codec<T>, r: Reader<T>, pieces: seq<string>, i: nat)
    requires i < |pieces|
    ensures FeedPieces(c, r, pieces[i..]) == FeedPieces(c, FeedPiece(c, r, pieces[i]), pieces[i + 1..])
  {
    assert pieces[i..][1..] == pieces[i + 1..];
  }

  /** The first piece of a chunk continues what was left of the chunk before. */
  lemma PiecesAre(partial: string, chunk: string)
    ensures var objects := Split(chunk, '\n');
      Pieces(partial, chunk) == if |partial| > 0 then objects[0 := partial + objects[0]] else objects
  {
    var objects := Split(chunk, '\n');
    if |partial| == 0 {
      assert partial + objects[0] == objects[0];
    }
  }

  /** What one more request adds to what the server writes. */
  lemma WrittenMore<D, R>(answer: seq<D> -> P.Answer<R>, handled: seq<P.Request<D>>, req: P.Request<D>)
    ensures P.Datas(handled + [req]) == P.Datas(handled) + [req.data]
    ensures var results := P.ResultsOf(answer(P.Datas(handled) + [req.data]));
      P.Written(answer, handled + [req]) == P.Written(answer, handled) + [P.Ack(req.id, |results|)] + P.AsReplies(results)
  {
    var all := handled + [req];
    assert all[..|all| - 1] == handled;
    var results := P.ResultsOf(answer(P.Datas(handled) + [req.data]));
    Associates(P.Written(answer, handled), [P.Ack(req.id, |results|)], P.AsReplies(results));
  }

  lemma Associates<T>(a: seq<T>, b: seq<T>, c: seq<T>)
    ensures a + b + c == a + (b + c)
  {
  }

  class Client<D(!new), R(!new)> {
    const mode: P.Mode
    const up: Codec<P.Request<D>>
    const down: Codec<P.Reply<R>>
    var nextId: nat
    /** What was written to the socket. */
    var output: string
    var partial: string
    var batchSize: nat
    var batchCounter: nat
    var currentId: nat
    var batch: seq<R>
    /** The callbacks called. */
    var calls: seq<P.Called<R>>
    ghost var sent: seq<P.Request<D>>
    ghost var handled: seq<P.Reply<R>>

    ghost predicate Valid()
      reads this
    {
      && nextId == |sent| && output == Lines(up, sent) && (forall i :: 0 <= i < |sent| ==> sent[i].id == i)
      && Routing() == P.Routed(mode, handled)
    }

    ghost function Routing(): P.Routing<R>
      reads this
    {
      P.Routing(batchSize, batchCounter, currentId, batch, calls)
    }

    ghost function State(): Reader<P.Reply<R>>
      reads this
    {
      Reader(partial, handled)
    }

    constructor (mode: P.Mode, up: Codec<P.Request<D>>, down: Codec<P.Reply<R>>)
      ensures Valid() && sent == [] && State() == Reader("", []) && this.mode == mode && this.up == up && this.down == down
    {
      this.mode, this.up, this.down := mode, up, down;
      nextId, output, partial := 0, "", "";
      batchSize, batchCounter, currentId, batch, calls := 0, 0, 0, [], [];
      sent, handled := [], [];
    }

    /** send: one more line, under the next id. */
    method Send(data: D)
      requires Valid()
      modifies this`nextId, this`output, this`sent
      ensures Valid() && sent == old(sent) + [P.Request(|old(sent)|, data)]
    {
      var request := P.Request(nextId, data);
      nextId := nextId + 1;
      LinesAppend(up, sent, [request]);
      assert [request][1..] == [];
      assert Lines(up, [request]) == up.stringify(request) + "\n" + "";
      output := output + up.stringify(request);
      output := output + "\n";
      sent := sent + [request];
      assert output == Lines(up, old(sent)) + (up.stringify(request) + "\n" + "");
    }

    /** The header of a request's results. */
    method OnAck(id: nat, count: nat)
      modifies this`batchSize, this`batchCounter, this`currentId, this`batch, this`calls
      ensures Routing() == P.Route(mode, old(Routing()), P.Ack(id, count))
    {
      batchSize := count;
      batchCounter := 0;
      currentId := id;
      if batchSize == 0 {
        calls := calls + [P.Called(currentId, [])];
      }
      batch := [];
    }

    /** One of the results. */
    method OnResult(value: R)
      modifies this`batchCounter, this`batch, this`calls
      ensures Routing() == P.Route(mode, old(Routing()), P.Result(value))
    {
      batchCounter := batchCounter + 1;
      if mode.Stream? {
        calls := calls + [P.Called(currentId, [value])];
      } else {
        batch := batch + [value];
        if batchCounter == batchSize {
          calls := calls + [P.Called(currentId, batch)];
        }
      }
    }

    /** One object from the server. */
    method OnObject(o: P.Reply<R>)
      requires Valid()
      modifies this`batchSize, this`batchCounter, this`currentId, this`batch, this`calls, this`handled
      ensures Valid() && handled == old(handled) + [o]
    {
      hide P.Routed, P.Route, Lines;
      P.RoutedMore(mode, handled, o);
      match o
      case Ack(id, count) =>
        OnAck(id, count);
        handled := handled + [o];
      case Result(value) =>
        OnResult(value);
        handled := handled + [o];
    }

    /** A chunk from the server; where the source catches an exception, parse is None. */
    method OnData(chunk: string)
      requires Valid()
      modifies this`partial, this`batchSize, this`batchCounter, this`currentId, this`batch, this`calls, this`handled
      ensures Valid() && State() == Feed(down, old(State()), chunk)
    {
      var objects := Split(chunk, '\n');
      if |partial| > 0 {
        objects := objects[0 := partial + objects[0]];
      }
      PiecesAre(partial, chunk);
      assert objects[0..] == objects;
      for i := 0 to |objects|
        invariant Valid() && FeedPieces(down, State(), objects[i..]) == Feed(down, old(State()), chunk)
      {
        FeedNext(down, State(), objects, i);
        if |objects[i]| == 0 {
          continue;
        }
        match down.parse(objects[i])
        case Some(o) =>
          OnObject(o);
          partial := "";
        case None =>
          partial := objects[i];
      }
    }
  }

  class Server<D(!new), R(!new)> {
    const answer: seq<D> -> P.Answer<R>
    const up: Codec<P.Request<D>>
    const down: Codec<P.Reply<R>>
    var partial: string
    var output: string
    ghost var handled: seq<P.Request<D>>
    /** The data of the requests so far: what the database has been told. */
    var history: seq<D>

    ghost predicate Valid()
      reads this
    {
      output == Lines(down, P.Written(answer, handled)) && history == P.Datas(handled)
    }

    ghost function State(): Reader<P.Request<D>>
      reads this
    {
      Reader(partial, handled)
    }

    constructor (answer: seq<D> -> P.Answer<R>, up: Codec<P.Request<D>>, down: Codec<P.Reply<R>>)
      ensures Valid() && State() == Reader("", []) && this.answer == answer && this.up == up && this.down == down
    {
      this.answer, this.up, this.down := answer, up, down;
      partial, output, handled, history := "", "", [], [];
    }

    method WriteLine(reply: P.Reply<R>, ghost before: seq<P.Reply<R>>)
      requires output == Lines(down, before)
      modifies this`output
      ensures output == Lines(down, before + [reply])
    {
      LinesAppend(down, before, [reply]);
      assert [reply][1..] == [];
      assert Lines(down, [reply]) == down.stringify(reply) + "\n" + "";
      output := output + down.stringify(reply);
      output := output + "\n";
      assert output == Lines(down, before) + (down.stringify(reply) + "\n" + "");
    }

    /** onRequest: a header with the id and the number of results, and every result. */
    method OnRequest(req: P.Request<D>)
      requires Valid()
      modifies this`output, this`history, this`handled
      ensures Valid() && handled == old(handled) + [req]
    {
      hide P.Written, P.Datas, P.AsReplies, Lines;
      WrittenMore(answer, handled, req);
      ghost var before := P.Written(answer, handled);
      history := history + [req.data];
      var results := P.ResultsOf(answer(history));
      WriteLine(P.Ack(req.id, |results|), before);
      WriteResults(results, before + [P.Ack(req.id, |results|)]);
      handled := handled + [req];
    }

    method WriteResults(results: seq<R>, ghost header: seq<P.Reply<R>>)
      requires output == Lines(down, header)
      modifies this`output
      ensures output == Lines(down, header + P.AsReplies(results))
    {
      assert results[..0] == [] && header + [] == header;
      for k := 0 to |results|
        invariant output == Lines(down, header + P.AsReplies(results[..k]))
      {
        WriteLine(P.Result(results[k]), header + P.AsReplies(results[..k]));
        assert results[..k + 1][..k] == results[..k];
        assert header + (P.AsReplies(results[..k]) + [P.Result(results[k])]) == header + P.AsReplies(results[..k]) + [P.Result(results[k])];
      }
      assert results[..|results|] == results;
    }

    method OnData(chunk: string)
      requires Valid()
      modifies this`partial, this`output, this`history, this`handled
      ensures Valid() && State() == Feed(up, old(State()), chunk)
    {
      var objects := Split(chunk, '\n');
      if |partial| > 0 {
        objects := objects[0 := partial + objects[0]];
      }
      PiecesAre(partial, chunk);
      assert objects[0..] == objects;
      for i := 0 to |objects|
        invariant Valid() && FeedPieces(up, State(), objects[i..]) == Feed(up, old(State()), chunk)
      {
        FeedNext(up, State(), objects, i);
        if |objects[i]| == 0 {
          continue;
        }
        match up.parse(objects[i])
        case Some(o) =>
          OnRequest(o);
          partial := "";
        case None =>
          partial := objects[i];
      }
    }
  }
}
