/** The Agent of http.js, as an object held to the functions of AgentPool. */
module HttpAgent {
  import opened Results
  import opened Sequences
  import P = AgentPool

  const DEFAULT_MAX_SOCKETS := 5

  method Find(s: seq<P.Socket>, socket: P.Socket) returns (index: int)
    ensures index == -1 ==> socket !in s
    ensures index != -1 ==> 0 <= index < |s| && s[index] == socket && forall i :: 0 <= i < index ==> s[i] != socket
  {
    for i := 0 to |s|
      invariant socket !in s[..i]
    {
      if s[i] == socket {
        return i;
      }
    }
    return -1;
  }

  class Agent {
    const maxSockets: nat
    var sockets: map<P.Name, seq<P.Socket>>
    var requests: map<P.Name, seq<P.Request>>
    var created: nat
    ghost var busy: set<P.Socket>
    ghost var dead: set<P.Socket>
    ghost var added: map<P.Name, seq<P.Request>>
    ghost var handed: map<P.Name, seq<P.Handing>>

    ghost function Value(): P.Pool
      reads this
    {
      P.Pool(maxSockets, sockets, requests, created, busy, dead, added, handed)
    }

    constructor (options: Option<nat>)
      ensures P.Inv(Value()) && Value() == P.Initial(maxSockets)
      ensures maxSockets == if options.Some? && options.value != 0 then options.value else 5
    {
      maxSockets := if options.Some? && options.value != 0 then options.value else DEFAULT_MAX_SOCKETS;
      sockets, requests, created, busy, dead, added, handed := map[], map[], 0, {}, {}, map[], map[];
      new;
      P.InitialInv(maxSockets);
    }

    /** request.onSocket(socket): the request has what it waited for. */
    ghost method OnSocket(name: P.Name, request: P.Request, socket: P.Socket)
      requires socket !in busy && socket !in dead
      modifies this`handed, this`busy
      ensures Value() == P.Hand(old(Value()), name, request, socket)
    {
      handed := handed[name := P.Get(handed, name) + [P.Handing(request, socket)]];
      busy := busy + {socket};
    }

    method CreateSocket(name: P.Name) returns (socket: P.Socket)
      modifies this`sockets, this`created
      ensures Value() == P.Create(old(Value()), name) && socket == old(created)
    {
      socket := created;
      created := created + 1;
      if name !in sockets {
        sockets := sockets[name := []];
      }
      sockets := sockets[name := sockets[name] + [socket]];
    }

    method AddRequest(request: P.Request, name: P.Name)
      requires P.Inv(Value())
      modifies this
      ensures P.Inv(Value()) && Value() == P.AddRequest(old(Value()), name, request)
    {
      P.AddRequestInv(Value(), name, request);
      hide P.Inv;
      added := added[name := P.Get(added, name) + [request]];
      if name !in sockets {
        sockets := sockets[name := []];
      }
      if |sockets[name]| < maxSockets {
        var socket := CreateSocket(name);
        OnSocket(name, request, socket);
      } else {
        if name !in requests {
          requests := requests[name := []];
        }
        requests := requests[name := requests[name] + [request]];
        assert requests == old(requests)[name := P.Get(old(requests), name) + [request]];
      }
    }

    /** The listener of the agent's free event. */
    method OnFree(socket: P.Socket, name: P.Name)
      requires socket !in dead
      modifies this
      ensures Value() == P.Free(old(Value()), name, socket)
    {
      busy := busy - {socket};
      if name in requests && |requests[name]| > 0 {
        var request := requests[name][0];
        requests := requests[name := requests[name][1..]];
        OnSocket(name, request, socket);
        if |requests[name]| == 0 {
          requests := requests - {name};
        }
      } else {
        dead := dead + {socket};
      }
    }

    /** A socket in use becomes free. */
    method Free(socket: P.Socket, name: P.Name)
      requires P.Inv(Value()) && socket in P.At(Value(), name).sockets && socket in busy
      modifies this
      ensures socket !in old(dead) && P.Inv(Value()) && Value() == P.Free(old(Value()), name, socket)
    {
      P.FreeInv(Value(), name, socket);
      hide P.Inv;
      OnFree(socket, name);
    }

    /** The listener of a socket's close and agentRemove events. */
    method RemoveSocket(socket: P.Socket, name: P.Name)
      requires P.Inv(Value())
      modifies this
      ensures Value() == P.Remove(old(Value()), name, socket)
      ensures socket in P.At(old(Value()), name).sockets ==> P.Inv(Value())
    {
      if socket in P.At(Value(), name).sockets {
        P.RemoveInv(Value(), name, socket);
      }
      assert P.Sane(Value()) && P.NameOk(Value(), name);
      hide P.Inv;
      Leave(socket, name);
      if name in requests && |requests[name]| > 0 {
        var next := CreateSocket(name);
        OnFree(next, name);
      }
    }

    method Leave(socket: P.Socket, name: P.Name)
      requires name in sockets ==> sockets[name] != []
      modifies this`sockets, this`busy, this`dead
      ensures Value() == P.Leave(old(Value()), name, socket)
    {
      busy, dead := busy - {socket}, dead - {socket};
      if name in sockets {
        var list := sockets[name];
        var index := Find(list, socket);
        if index != -1 {
          FirstIndex(list, socket, index);
          sockets := sockets[name := list[..index] + list[index + 1..]];
          if |sockets[name]| == 0 {
            sockets := sockets - {name};
          }
        } else {
          assert sockets[name := sockets[name]] == sockets;
        }
      }
    }
  }
}
