/** The client's pool of sockets per host and port, and the requests waiting for one. */
module AgentPool {
  import opened Sequences

  type Name = string
  type Socket = nat
  type Request = nat

  /** request.onSocket(socket) was called. */
  datatype Handing = Handing(request: Request, socket: Socket)

  /**
   * The two tables of an Agent; how many sockets were ever created, which are in use and which were destroyed; and, per name, the
   * requests added and the sockets handed out, in order.
   */
  datatype Pool = Pool(max: nat, sockets: map<Name, seq<Socket>>, requests: map<Name, seq<Request>>,
                       created: nat, busy: set<Socket>, dead: set<Socket>,
                       added: map<Name, seq<Request>>, handed: map<Name, seq<Handing>>)

  function Get<T>(m: map<Name, seq<T>>, name: Name): seq<T> {
    if name in m then m[name] else []
  }

  /** Only sockets that were created are in use or destroyed. */
  ghost predicate Sane(p: Pool) {
    forall x :: x in p.busy || x in p.dead ==> x < p.created
  }

  /** No socket is handed out while it is in use, or after it was destroyed. */
  function Hand(p: Pool, name: Name, request: Request, socket: Socket): Pool
    requires socket !in p.busy && socket !in p.dead
  {
    p.(handed := p.handed[name := Get(p.handed, name) + [Handing(request, socket)]], busy := p.busy + {socket})
  }

  /** createSocket; the new socket is p.created. */
  function Create(p: Pool, name: Name): Pool {
    p.(sockets := p.sockets[name := Get(p.sockets, name) + [p.created]], created := p.created + 1)
  }

  /** The request comes in; its name has a pool from now on. */
  function Enter(p: Pool, name: Name, request: Request): Pool {
    p.(added := p.added[name := Get(p.added, name) + [request]],
       sockets := if name in p.sockets then p.sockets else p.sockets[name := []])
  }

  function Serve(p: Pool, name: Name, request: Request): Pool
    requires Sane(p)
  {
    Hand(Create(p, name), name, request, p.created)
  }

  function Wait(p: Pool, name: Name, request: Request): Pool {
    p.(requests := p.requests[name := Get(p.requests, name) + [request]])
  }

  function AddRequest(p: Pool, name: Name, request: Request): Pool
    requires Sane(p)
  {
    var p1 := Enter(p, name, request);
    if |p1.sockets[name]| < p.max then Serve(p1, name, request) else Wait(p1, name, request)
  }

  /** The listener of the free event. */
  function Free(p: Pool, name: Name, socket: Socket): Pool
    requires socket !in p.dead
  {
    var waiting := Get(p.requests, name);
    var p1 := p.(busy := p.busy - {socket});
    if waiting == [] then p1.(dead := p1.dead + {socket})
    else
      Hand(p1, name, waiting[0], socket).(requests := if |waiting| == 1 then p.requests - {name} else p.requests[name := waiting[1..]])
  }

  /** The socket leaves the pool. */
  function Leave(p: Pool, name: Name, socket: Socket): Pool {
    var left := Minus(Get(p.sockets, name), socket);
    p.(sockets := if left == [] then p.sockets - {name} else p.sockets[name := left],
       busy := p.busy - {socket}, dead := p.dead - {socket})
  }

  /** A new socket takes its place. */
  function TakeOver(p: Pool, name: Name): Pool
    requires Sane(p)
  {
    Free(Create(p, name), name, p.created)
  }

  function Remove(p: Pool, name: Name, socket: Socket): Pool
    requires Sane(p)
  {
    var p1 := Leave(p, name, socket);
    if Get(p.requests, name) == [] then p1 else TakeOver(p1, name)
  }

  // ---------- the invariant ----------

  function Requests(handed: seq<Handing>): seq<Request> {
    if handed == [] then [] else Requests(handed[..|handed| - 1]) + [handed[|handed| - 1].request]
  }

  /** One name's part of the tables. */
  datatype Host = Host(sockets: seq<Socket>, waiting: seq<Request>, added: seq<Request>, handed: seq<Handing>)

  function At(p: Pool, name: Name): Host {
    Host(Get(p.sockets, name), Get(p.requests, name), Get(p.added, name), Get(p.handed, name))
  }

  /** Requests handed a socket, followed by those waiting, are those added, in order. */
  predicate InOrder(h: Host) {
    Requests(h.handed) + h.waiting == h.added
  }

  /** Every socket of the pool exists, is there once, and is either in use or destroyed. */
  predicate Known(h: Host, created: nat, busy: set<Socket>, dead: set<Socket>) {
    Unique(h.sockets) && forall x :: x in h.sockets ==> x < created && (x in busy <==> x !in dead)
  }

  predicate Sound(p: Pool, name: Name) {
    && InOrder(At(p, name)) && Known(At(p, name), p.created, p.busy, p.dead)
    && (name in p.sockets ==> p.sockets[name] != []) && (name in p.requests ==> p.requests[name] != [])
  }

  /** Never more sockets than the limit, and requests wait only at the limit. */
  predicate Limited(h: Host, max: nat) {
    |h.sockets| <= max && (h.waiting != [] ==> |h.sockets| == max)
  }

  predicate NameOk(p: Pool, name: Name) {
    Sound(p, name) && Limited(At(p, name), p.max)
  }

  /** No socket is in two pools. */
  predicate Apart(p: Pool, a: Name, b: Name) {
    forall x :: x in Get(p.sockets, a) ==> x !in Get(p.sockets, b)
  }

  ghost predicate Inv(p: Pool) {
    && p.max >= 1 && (forall name :: NameOk(p, name)) && (forall a, b :: a != b ==> Apart(p, a, b))
    && Sane(p)
  }

  function Initial(max: nat): Pool {
    Pool(max, map[], map[], 0, {}, {}, map[], map[])
  }

  lemma InitialInv(max: nat)
    requires max >= 1
    ensures Inv(Initial(max))
  {
    assert Requests([]) == [];
  }

  lemma RequestsMore(handed: seq<Handing>, h: Handing)
    ensures Requests(handed + [h]) == Requests(handed) + [h.request]
  {
    var more := handed + [h];
    assert more[..|more| - 1] == handed;
  }

  /** The tables of one name are the same; only these sockets' standing may have changed, and they are not among them. */
  ghost predicate SameFor(p: Pool, q: Pool, name: Name, changed: set<Socket>) {
    && At(q, name) == At(p, name) && (name in q.sockets <==> name in p.sockets) && (name in q.requests <==> name in p.requests)
    && q.max == p.max && q.created >= p.created && (forall x :: x in changed ==> x !in At(p, name).sockets)
    && (forall x :: x !in changed ==> (x in q.busy <==> x in p.busy) && (x in q.dead <==> x in p.dead))
  }

  lemma SameOk(p: Pool, q: Pool, name: Name, changed: set<Socket>)
    requires NameOk(p, name) && SameFor(p, q, name, changed)
    ensures NameOk(q, name)
  {
  }

  /** An event at one name, about some sockets, leaves the other names alone. */
  lemma OnlyName(p: Pool, q: Pool, name: Name, changed: set<Socket>)
    requires Inv(p) && Sane(q) && q.max == p.max && NameOk(q, name)
    requires forall other :: other != name ==> SameFor(p, q, other, changed)
    requires forall x :: x in Get(q.sockets, name) ==> x in Get(p.sockets, name) || x >= p.created
    ensures Inv(q)
  {
    forall other ensures NameOk(q, other) {
      if other != name {
        assert NameOk(p, other);
        SameOk(p, q, other, changed);
      }
    }
    forall a, b | a != b ensures Apart(q, a, b) {
      assert Apart(p, a, b) && Apart(p, b, a) && NameOk(p, a) && NameOk(p, b);
      forall x | x in Get(q.sockets, a) ensures x !in Get(q.sockets, b) {
        assert a == name || SameFor(p, q, a, changed);
        assert b == name || SameFor(p, q, b, changed);
      }
    }
  }

  /** The new socket joins the pool, and is in use. */
  lemma KnownJoins(h: Host, h': Host, p: Pool)
    requires Known(h, p.created, p.busy, p.dead) && Sane(p) && h'.sockets == h.sockets + [p.created]
    ensures Known(h', p.created + 1, p.busy + {p.created}, p.dead)
  {
  }

  /** The request waiting longest is handed a socket. */
  lemma OrderServed(h: Host, h': Host, socket: Socket)
    requires InOrder(h) && h.waiting != []
    requires h'.waiting == h.waiting[1..] && h'.added == h.added && h'.handed == h.handed + [Handing(h.waiting[0], socket)]
    ensures InOrder(h')
  {
    RequestsMore(h.handed, Handing(h.waiting[0], socket));
    assert Requests(h.handed) + [h.waiting[0]] + h.waiting[1..] == Requests(h.handed) + h.waiting;
  }

  lemma OrderAdded(h: Host, h': Host, request: Request, socket: Socket)
    requires InOrder(h) && h'.added == h.added + [request]
    requires || (h'.waiting == h.waiting + [request] && h'.handed == h.handed)
             || (h'.waiting == h.waiting == [] && h'.handed == h.handed + [Handing(request, socket)])
    ensures InOrder(h')
  {
    RequestsMore(h.handed, Handing(request, socket));
    assert Requests(h.handed) + (h.waiting + [request]) == Requests(h.handed) + h.waiting + [request];
    assert Requests(h'.handed) + [] == Requests(h'.handed);
    assert Requests(h.handed) + [] == Requests(h.handed);
  }

  lemma ServedHost(p: Pool, p1: Pool, name: Name, request: Request)
    requires Sane(p) && p1 == Enter(p, name, request)
    ensures Sane(p1)
    ensures var q, h := Serve(p1, name, request), At(p, name);
      && At(q, name) == Host(h.sockets + [p.created], h.waiting, h.added + [request], h.handed + [Handing(request, p.created)])
      && q.max == p.max && q.created == p.created + 1 && q.busy == p.busy + {p.created} && q.dead == p.dead
      && name in q.sockets && q.requests == p.requests
  {
  }

  lemma ServeOk(p: Pool, p1: Pool, name: Name, request: Request)
    requires NameOk(p, name) && Sane(p) && p1 == Enter(p, name, request) && |At(p, name).sockets| < p.max
    ensures Sane(p1) && NameOk(Serve(p1, name, request), name)
  {
    hide InOrder, Known, Serve, Enter, Sane;
    ServedHost(p, p1, name, request);
    var q, h := Serve(p1, name, request), At(p, name);
    KnownJoins(h, At(q, name), p);
    OrderAdded(h, At(q, name), request, p.created);
  }

  lemma WaitOk(p: Pool, p1: Pool, name: Name, request: Request)
    requires NameOk(p, name) && p1 == Enter(p, name, request) && |At(p, name).sockets| == p.max >= 1
    ensures NameOk(Wait(p1, name, request), name)
  {
    var q, h := Wait(p1, name, request), At(p, name);
    hide InOrder, Known;
    assert At(q, name) == Host(h.sockets, h.waiting + [request], h.added + [request], h.handed);
    KnownSame(h, At(q, name), p);
    OrderAdded(h, At(q, name), request, p.created);
  }

  lemma KnownSame(h: Host, h': Host, p: Pool)
    requires Known(h, p.created, p.busy, p.dead) && h'.sockets == h.sockets
    ensures Known(h', p.created, p.busy, p.dead)
  {
  }

  lemma AddRequestInv(p: Pool, name: Name, request: Request)
    requires Inv(p)
    ensures Inv(AddRequest(p, name, request))
  {
    hide NameOk, SameFor, AddRequest;
    var q := AddRequest(p, name, request);
    AddOk(p, name, request);
    AddSockets(p, name, request);
    forall other | other != name ensures SameFor(p, q, other, {p.created}) {
      NewIsNowhere(p, other);
      AddSame(p, name, request, other);
    }
    OnlyName(p, q, name, {p.created});
  }

  lemma AddOk(p: Pool, name: Name, request: Request)
    requires Inv(p)
    ensures NameOk(AddRequest(p, name, request), name)
  {
    hide Serve, Wait, InOrder, Known;
    assert NameOk(p, name);
    var p1 := Enter(p, name, request);
    if |At(p, name).sockets| < p.max {
      ServeOk(p, p1, name, request);
    } else {
      WaitOk(p, p1, name, request);
    }
  }

  lemma AddSockets(p: Pool, name: Name, request: Request)
    requires Sane(p)
    ensures var q := AddRequest(p, name, request);
      Sane(q) && q.max == p.max && forall x :: x in Get(q.sockets, name) ==> x in Get(p.sockets, name) || x >= p.created
  {
  }

  lemma NewIsNowhere(p: Pool, name: Name)
    requires NameOk(p, name)
    ensures p.created !in At(p, name).sockets
  {
  }

  lemma AddSame(p: Pool, name: Name, request: Request, other: Name)
    requires Sane(p) && other != name && p.created !in At(p, other).sockets
    ensures SameFor(p, AddRequest(p, name, request), other, {p.created})
  {
  }

  lemma FreeOk(p: Pool, name: Name, socket: Socket)
    requires NameOk(p, name) && socket in At(p, name).sockets && socket in p.busy
    ensures socket !in p.dead && NameOk(Free(p, name, socket), name)
  {
    assert socket !in p.dead;
    var q, h := Free(p, name, socket), At(p, name);
    if h.waiting != [] {
      OrderServed(h, At(q, name), socket);
    }
  }

  lemma FreeInv(p: Pool, name: Name, socket: Socket)
    requires Inv(p) && socket in At(p, name).sockets && socket in p.busy
    ensures socket !in p.dead && Inv(Free(p, name, socket))
  {
    assert NameOk(p, name);
    FreeOk(p, name, socket);
    var q := Free(p, name, socket);
    forall other | other != name ensures SameFor(p, q, other, {socket}) {
      assert Apart(p, name, other);
    }
    hide NameOk, SameFor;
    OnlyName(p, q, name, {socket});
  }

  lemma LeaveSound(p: Pool, name: Name, socket: Socket)
    requires Sound(p, name) && Sane(p) && socket in At(p, name).sockets
    ensures var q := Leave(p, name, socket);
      && Sound(q, name) && Sane(q) && At(q, name) == At(p, name).(sockets := Minus(At(p, name).sockets, socket))
  {
    MinusFacts(Get(p.sockets, name), socket);
    MinusIs(Get(p.sockets, name), socket);
  }

  lemma TakeOverOk(p: Pool, name: Name)
    requires Sound(p, name) && Sane(p) && At(p, name).waiting != [] && |At(p, name).sockets| + 1 == p.max
    ensures var q := TakeOver(p, name);
      NameOk(q, name) && Sane(q) && At(q, name).sockets == At(p, name).sockets + [p.created]
  {
    var q, h := TakeOver(p, name), At(p, name);
    hide InOrder, Known;
    assert p.busy - {p.created} == p.busy;
    OrderServed(h, At(q, name), p.created);
    KnownJoins(h, At(q, name), p);
  }

  lemma LeaveSame(p: Pool, name: Name, socket: Socket, other: Name)
    requires other != name && socket !in At(p, other).sockets
    ensures SameFor(p, Leave(p, name, socket), other, {socket})
  {
  }

  lemma TakeOverSame(p: Pool, name: Name, other: Name)
    requires Sane(p) && other != name && p.created !in At(p, other).sockets
    ensures SameFor(p, TakeOver(p, name), other, {p.created})
  {
  }

  lemma SameTwice(p: Pool, q: Pool, r: Pool, name: Name, a: set<Socket>, b: set<Socket>)
    requires SameFor(p, q, name, a) && SameFor(q, r, name, b)
    ensures SameFor(p, r, name, a + b)
  {
  }

  lemma TakenOver(p: Pool, name: Name, socket: Socket)
    requires Inv(p) && socket in At(p, name).sockets && At(p, name).waiting != []
    ensures Inv(Remove(p, name, socket))
  {
    assert NameOk(p, name);
    var q := Leave(p, name, socket);
    LeaveSound(p, name, socket);
    TakeOverOk(q, name);
    var r := TakeOver(q, name);
    forall other | other != name ensures SameFor(p, r, other, {socket} + {p.created}) {
      assert Apart(p, name, other) && NameOk(p, other);
      LeaveSame(p, name, socket, other);
      TakeOverSame(q, name, other);
      hide SameFor;
      SameTwice(p, q, r, other, {socket}, {p.created});
    }
    hide NameOk, SameFor;
    OnlyName(p, r, name, {socket} + {p.created});
  }

  /** A socket that leaves its pool makes room for one that serves the request waiting longest. */
  lemma RemoveInv(p: Pool, name: Name, socket: Socket)
    requires Inv(p) && socket in At(p, name).sockets
    ensures Inv(Remove(p, name, socket))
  {
    if At(p, name).waiting != [] {
      TakenOver(p, name, socket);
    } else {
      assert NameOk(p, name);
      LeaveSound(p, name, socket);
      var q := Leave(p, name, socket);
      forall other | other != name ensures SameFor(p, q, other, {socket}) {
        assert Apart(p, name, other);
        LeaveSame(p, name, socket, other);
      }
      hide NameOk, SameFor;
      OnlyName(p, q, name, {socket});
    }
  }

  /** Removing a socket that is not in the pool keeps the limit just when no request waits. */
  lemma RemoveStranger(p: Pool, name: Name, socket: Socket)
    requires Inv(p) && socket !in Get(p.sockets, name)
    ensures |Get(Remove(p, name, socket).sockets, name)| <= p.max <==> Get(p.requests, name) == []
  {
    assert NameOk(p, name);
  }

  // ---------- who is served ----------

  /** Below the limit a request is handed a new socket at once; at the limit it waits behind the others. */
  lemma AddServes(p: Pool, name: Name, request: Request)
    requires Inv(p)
    ensures var q, waiting := AddRequest(p, name, request), Get(p.requests, name);
      if |Get(p.sockets, name)| < p.max then
        && Get(q.handed, name) == Get(p.handed, name) + [Handing(request, p.created)] && waiting == Get(q.requests, name) == []
        && Get(q.sockets, name) == Get(p.sockets, name) + [p.created] && p.created in q.busy
      else
        && Get(q.handed, name) == Get(p.handed, name) && Get(q.requests, name) == waiting + [request]
        && Get(q.sockets, name) == Get(p.sockets, name) && q.created == p.created
  {
    hide Sound, Apart;
    assert NameOk(p, name);
  }

  /** A free socket serves the request that has waited longest, and is destroyed if there is none. */
  lemma FreeServes(p: Pool, name: Name, socket: Socket)
    requires Inv(p) && socket in Get(p.sockets, name) && socket in p.busy
    ensures socket !in p.dead && Get(Free(p, name, socket).sockets, name) == Get(p.sockets, name)
    ensures var q, waiting := Free(p, name, socket), Get(p.requests, name);
      if waiting != [] then
        && Get(q.handed, name) == Get(p.handed, name) + [Handing(waiting[0], socket)] && Get(q.requests, name) == waiting[1..]
        && socket in q.busy && q.dead == p.dead
      else
        && q.handed == p.handed && Get(q.requests, name) == [] && socket !in q.busy && q.dead == p.dead + {socket}
  {
    hide Apart;
    assert NameOk(p, name);
  }

  /** A pooled socket that goes is in the pool no more; the request that has waited longest is handed a new one. */
  lemma RemoveServes(p: Pool, name: Name, socket: Socket)
    requires Inv(p) && socket in Get(p.sockets, name)
    ensures var q, waiting := Remove(p, name, socket), Get(p.requests, name);
      && socket !in Get(q.sockets, name)
      && (forall x :: x in Get(p.sockets, name) && x != socket ==> x in Get(q.sockets, name))
      && (if waiting != [] then
            && Get(q.handed, name) == Get(p.handed, name) + [Handing(waiting[0], p.created)] && Get(q.requests, name) == waiting[1..]
            && p.created in Get(q.sockets, name) && p.created in q.busy
          else q.handed == p.handed && Get(q.requests, name) == [] && q.created == p.created)
  {
    hide Apart, Minus;
    assert NameOk(p, name);
    MinusFacts(Get(p.sockets, name), socket);
    MinusIs(Get(p.sockets, name), socket);
  }

  // ---------- runs ----------

  datatype Event = Added(name: Name, request: Request) | Freed(name: Name, socket: Socket) | Gone(name: Name, socket: Socket)

  /** A socket becomes free while it is in use; it closes, or is taken out of the pool, once. */
  predicate Possible(p: Pool, e: Event) {
    match e
    case Added(_, _) => true
    case Freed(name, socket) => socket in Get(p.sockets, name) && socket in p.busy
    case Gone(name, socket) => socket in Get(p.sockets, name)
  }

  ghost function Next(p: Pool, e: Event): Pool
    requires Inv(p) && Possible(p, e)
  {
    match e
    case Added(name, request) => AddRequest(p, name, request)
    case Freed(name, socket) => FreeInv(p, name, socket); Free(p, name, socket)
    case Gone(name, socket) => Remove(p, name, socket)
  }

  lemma NextInv(p: Pool, e: Event)
    requires Inv(p) && Possible(p, e)
    ensures Inv(Next(p, e))
  {
    match e
    case Added(name, request) => AddRequestInv(p, name, request);
    case Freed(name, socket) => FreeInv(p, name, socket);
    case Gone(name, socket) => RemoveInv(p, name, socket);
  }

  /** q can be reached from p by these events. */
  ghost predicate Reaches(p: Pool, events: seq<Event>, q: Pool)
    requires Inv(p)
    decreases |events|
  {
    if events == [] then q == p
    else Possible(p, events[0]) && (NextInv(p, events[0]); Reaches(Next(p, events[0]), events[1..], q))
  }

  /** The requests added under a name by a run. */
  function AddedBy(events: seq<Event>, name: Name): seq<Request> {
    if events == [] then []
    else AddedUnder(events[0], name) + AddedBy(events[1..], name)
  }

  function AddedUnder(e: Event, name: Name): seq<Request> {
    if e.Added? && e.name == name then [e.request] else []
  }

  lemma NextAdded(p: Pool, e: Event, name: Name)
    requires Inv(p) && Possible(p, e)
    ensures Get(Next(p, e).added, name) == Get(p.added, name) + AddedUnder(e, name) && Next(p, e).max == p.max
  {
  }

  lemma InvFor(p: Pool, name: Name)
    requires Inv(p)
    ensures NameOk(p, name)
  {
  }

  /**
   * In every run: the limit is kept, requests wait only at the limit, and the requests handed a socket followed by those still
   * waiting are exactly those added, in order, so that none is lost, none served twice, and none overtaken.
   */
  lemma {:induction false} RunInv(p: Pool, events: seq<Event>, q: Pool, name: Name)
    requires Inv(p) && Reaches(p, events, q)
    ensures Inv(q) && |Get(q.sockets, name)| <= q.max == p.max
    ensures Get(q.requests, name) != [] ==> |Get(q.sockets, name)| == q.max
    ensures Requests(Get(q.handed, name)) + Get(q.requests, name) == Get(p.added, name) + AddedBy(events, name)
    decreases |events|
  {
    hide Inv, NameOk, Next;
    if events == [] {
      InvFor(p, name);
      NameLimits(p, name);
      assert Get(p.added, name) + [] == Get(p.added, name);
    } else {
      NextInv(p, events[0]);
      NextAdded(p, events[0], name);
      RunInv(Next(p, events[0]), events[1..], q, name);
      var first, more := AddedUnder(events[0], name), AddedBy(events[1..], name);
      assert Get(p.added, name) + first + more == Get(p.added, name) + (first + more);
    }
  }

  lemma NameLimits(p: Pool, name: Name)
    requires NameOk(p, name)
    ensures |Get(p.sockets, name)| <= p.max
    ensures Get(p.requests, name) != [] ==> |Get(p.sockets, name)| == p.max
    ensures Requests(Get(p.handed, name)) + Get(p.requests, name) == Get(p.added, name)
  {
  }
}
