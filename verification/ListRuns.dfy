/** Any number of lists at once, with items moving between them: what every run of the functions of _linklist.js keeps. */
module ListRuns {
  import opened LinkList
  import opened Sequences

  /** The calls; a node that init is called on is an empty list, and an item again when it is appended or removed. */
  datatype Op = Init(node: Node) | Append(list: Node, item: Node) | Remove(item: Node) | Shift(list: Node)

  /** The items of each list, oldest first. */
  type Lists = map<Node, seq<Node>>

  ghost predicate OnList(lists: Lists, x: Node) {
    exists l :: l in lists && x in lists[l]
  }

  /** Without x, as a list or on one. */
  function Off(lists: Lists, x: Node): Lists {
    map l | l in lists && l != x :: Minus(lists[l], x)
  }

  /** What the calls are for. */
  function After(lists: Lists, op: Op): Lists
    requires op.Append? ==> op.list in lists && op.list != op.item
    requires op.Shift? ==> op.list in lists && lists[op.list] != []
  {
    match op
    case Init(n) => lists[n := []]
    case Append(l, x) => Off(lists, x)[l := Minus(lists[l], x) + [x]]
    case Remove(x) => Off(lists, x)
    case Shift(l) => Off(lists, lists[l][0])
  }

  /** No call is made on a list that has items, but for those that are for lists; and shift is for lists that have some. */
  ghost predicate Allowed(h: Links, lists: Lists, op: Op) {
    match op
    case Init(n) => !OnList(lists, n) && (n in lists ==> lists[n] == [])
    case Append(l, x) => l in lists && x in h && l != x && (x in lists ==> lists[x] == [])
    case Remove(x) => x in h && (x in lists ==> lists[x] == [])
    case Shift(l) => l in lists && lists[l] != []
  }

  /** No node is on two lists, or a list and on one. */
  ghost predicate Apart(lists: Lists) {
    && (forall l, x :: l in lists && x in lists[l] ==> x !in lists)
    && (forall l, k, x :: l in lists && k in lists && x in lists[l] && x in lists[k] ==> l == k)
  }

  /** Nodes that are no lists and on none have no links. */
  ghost predicate OthersUnlinked(h: Links, lists: Lists) {
    forall x :: x in h && x !in lists && !OnList(lists, x) ==> h[x] == NO_LINKS
  }

  /** Every list is a ring of its items, and nothing else is linked. */
  ghost predicate Rings(h: Links, lists: Lists) {
    && Closed(h) && Apart(lists) && OthersUnlinked(h, lists)
    && (forall l :: l in lists ==> Ring(h, l, lists[l]))
  }

  /** What the calls do to the links. */
  ghost function Relinked(h: Links, lists: Lists, op: Op): Links
    requires Rings(h, lists) && Allowed(h, lists, op)
  {
    match op
    case Init(n) => Inited(h, n)
    case Append(l, x) =>
      RemovedRings(h, lists, x);
      RingIsThere(Removed(h, x), Off(lists, x), l);
      Inserted(Removed(h, x), l, x)
    case Remove(x) => Removed(h, x)
    case Shift(l) =>
      OldestIs(h, lists, l);
      Removed(h, h[l].prev)
  }

  lemma RingIsThere(h: Links, lists: Lists, l: Node)
    requires Rings(h, lists) && l in lists
    ensures l in h && h[l].next != null && h[l].next in h
  {
    assert Ring(h, l, lists[l]);
  }

  lemma OldestIs(h: Links, lists: Lists, l: Node)
    requires Rings(h, lists) && l in lists && lists[l] != []
    ensures l in h && h[l].prev == lists[l][0] && h[l].prev in h && lists[l][0] !in lists
  {
    assert Ring(h, l, lists[l]);
    assert Follows(h, l, lists[l], 0);
  }

  lemma OffIs(lists: Lists, x: Node)
    ensures forall l :: l in Off(lists, x) <==> l in lists && l != x
    ensures forall l :: l in Off(lists, x) ==> Off(lists, x)[l] == Minus(lists[l], x)
    ensures forall l, y :: l in lists && l != x && y != x ==> (y in Minus(lists[l], x) <==> y in lists[l])
  {
    forall l | l in lists {
      MinusIs(lists[l], x);
    }
  }

  /** A node of a ring is on it once. */
  lemma MinusLeaves(h: Links, lists: Lists, l: Node, x: Node)
    requires Rings(h, lists) && l in lists
    ensures x !in Minus(lists[l], x)
  {
    hide Minus, Closed, Apart, OthersUnlinked;
    assert Ring(h, l, lists[l]);
    MinusFacts(lists[l], x);
  }

  lemma OffApart(lists: Lists, x: Node)
    requires Apart(lists)
    ensures Apart(Off(lists, x))
  {
    var lists' := Off(lists, x);
    forall l, y | l in lists' && y in lists'[l] ensures y in lists[l] {
      MinusIs(lists[l], x);
    }
  }

  lemma OffOthers(h: Links, h': Links, lists: Lists, x: Node)
    requires OthersUnlinked(h, lists) && h'.Keys == h.Keys && x in h' && h'[x] == NO_LINKS
    requires forall y :: y in h && y != x && (forall l :: l in lists && x in lists[l] ==> y != l && y !in lists[l]) ==> h'[y] == h[y]
    requires x in lists ==> lists[x] == []
    ensures OthersUnlinked(h', Off(lists, x))
  {
    hide Off;
    OffIs(lists, x);
    var lists' := Off(lists, x);
    forall y | y in h' && y !in lists' && !OnList(lists', y) ensures h'[y] == NO_LINKS {
      if y != x {
        StaysOn(lists, lists', x, y);
        forall l | l in lists && x in lists[l] ensures y != l && y !in lists[l] {
          assert !OnList(lists, y);
        }
      }
    }
  }

  lemma StaysOn(lists: Lists, lists': Lists, x: Node, y: Node)
    requires forall l :: l in lists' <==> l in lists && l != x
    requires forall l :: l in lists && l != x && y in lists[l] ==> y in lists'[l]
    requires x in lists ==> lists[x] == []
    ensures OnList(lists, y) ==> OnList(lists', y)
  {
    if OnList(lists, y) {
      var l :| l in lists && y in lists[l];
      assert l in lists' && y in lists'[l];
    }
  }

  /** Taking a node off wherever it is. */
  lemma RemovedRings(h: Links, lists: Lists, x: Node)
    requires Rings(h, lists) && x in h && (x in lists ==> lists[x] == [])
    ensures var h' := Removed(h, x);
      h'.Keys == h.Keys && h'[x] == NO_LINKS && Rings(h', Off(lists, x)) && x !in Off(lists, x) && !OnList(Off(lists, x), x)
  {
    hide Apart, OthersUnlinked, Ring, Removed, Closed, Minus;
    var h', lists' := Removed(h, x), Off(lists, x);
    RemovedClosed(h, x);
    OffIs(lists, x);
    OffApart(lists, x);
    RemovedLinks(h, lists, x);
    OffOthers(h, h', lists, x);
    forall l | l in lists' ensures Ring(h', l, lists'[l]) && x !in lists'[l] {
      RemovedRing(h, lists, x, l);
      MinusLeaves(h, lists, l, x);
    }
  }

  /** The links of nodes that are neither the node's nor its list's stay. */
  lemma RemovedLinks(h: Links, lists: Lists, x: Node)
    requires Rings(h, lists) && x in h && (x in lists ==> lists[x] == [])
    ensures var h' := Removed(h, x);
      h'.Keys == h.Keys && h'[x] == NO_LINKS
      && forall y :: y in h && y != x && (forall l :: l in lists && x in lists[l] ==> y != l && y !in lists[l]) ==> h'[y] == h[y]
  {
    if OnList(lists, x) {
      var l :| l in lists && x in lists[l];
      assert Ring(h, l, lists[l]);
      RemoveFromRing(h, l, lists[l], IndexOf(lists[l], x));
    } else {
      if x in lists {
        assert Ring(h, x, lists[x]);
      }
      RemoveAlone(h, x);
    }
  }

  /** Neither the sentinel of a list that x is not on, nor an item of it, is relinked. */
  lemma KeepsLinks(h: Links, lists: Lists, x: Node, l: Node, y: Node)
    requires Rings(h, lists) && x in h && l in lists && l != x && x !in lists[l] && (x in lists ==> lists[x] == [])
    requires y in h && (y == l || y in lists[l])
    ensures Removed(h, x)[y] == h[y]
  {
    hide Ring, Closed, OthersUnlinked;
    RemovedLinks(h, lists, x);
    forall k | k in lists && x in lists[k] ensures y != k && y !in lists[k] {
    }
  }

  lemma RingOf(h: Links, lists: Lists, l: Node)
    requires Rings(h, lists) && l in lists
    ensures Closed(h) && Ring(h, l, lists[l]) && l in h && forall y :: y in lists[l] ==> y in h
  {
    Members(h, l, lists[l]);
  }

  lemma RemovedRing(h: Links, lists: Lists, x: Node, l: Node)
    requires Rings(h, lists) && x in h && l in lists && l != x && (x in lists ==> lists[x] == [])
    ensures Closed(h) && Ring(Removed(h, x), l, Minus(lists[l], x))
  {
    hide Rings, Removed, Ring, Closed;
    var q := lists[l];
    RingOf(h, lists, l);
    if x in q {
      RemoveFromRing(h, l, q, IndexOf(q, x));
    } else {
      RemovedClosed(h, x);
      forall y | y == l || y in q ensures Removed(h, x)[y] == h[y] {
        KeepsLinks(h, lists, x, l, y);
      }
      RingStays(h, Removed(h, x), l, q);
    }
  }

  /** A list gets another item, or becomes empty. */
  lemma ChangedOthers(h: Links, h': Links, lists: Lists, l: Node, q: seq<Node>, x: Node)
    requires OthersUnlinked(h, lists) && (l in lists ==> forall y :: y in lists[l] ==> y in q)
    requires forall y :: y in h' && y != l && y != x && !OnList(lists, y) ==> y in h && h'[y] == h[y]
    requires x == l || x in q
    ensures OthersUnlinked(h', lists[l := q])
  {
    var lists' := lists[l := q];
    forall y | y in h' && y !in lists' && !OnList(lists', y) ensures h'[y] == NO_LINKS {
      assert l in lists' && lists'[l] == q;
      if OnList(lists, y) {
        OnMore(lists, l, q, y);
      }
    }
  }

  lemma OnMore(lists: Lists, l: Node, q: seq<Node>, y: Node)
    requires l in lists ==> forall y :: y in lists[l] ==> y in q
    requires OnList(lists, y)
    ensures OnList(lists[l := q], y)
  {
    var lists' := lists[l := q];
    var k :| k in lists && y in lists[k];
    assert k in lists' && y in lists'[k];
  }

  /** The other lists are what they were. */
  lemma OtherRing(h: Links, h': Links, lists: Lists, l: Node, k: Node)
    requires Rings(h, lists) && k in lists && k != l && k in h' && h'[k] == h[k]
    requires forall y :: y in lists[k] ==> y in h ==> y in h' && h'[y] == h[y]
    ensures Ring(h', k, lists[k])
  {
    assert Ring(h, k, lists[k]);
    Members(h, k, lists[k]);
    RingStays(h, h', k, lists[k]);
  }

  /** Linking a node in that is nowhere. */
  lemma InsertedRings(h: Links, lists: Lists, l: Node, x: Node)
    requires Rings(h, lists) && l in lists && x in h && x !in lists && !OnList(lists, x)
    ensures l in h && h[l].next != null && h[l].next in h
    ensures Rings(Inserted(h, l, x), lists[l := lists[l] + [x]])
  {
    hide Inserted, Ring, Closed, OthersUnlinked;
    RingIsThere(h, lists, l);
    var h', lists' := Inserted(h, l, x), lists[l := lists[l] + [x]];
    assert x !in lists[l];
    InsertIntoRing(h, l, lists[l], x);
    InsertedClosed(h, l, x);
    ChangedOthers(h, h', lists, l, lists[l] + [x], x);
    forall k | k in lists && k != l ensures Ring(h', k, lists[k]) {
      RingIsThere(h, lists, k);
      OtherRing(h, h', lists, l, k);
    }
  }

  lemma InitedRings(h: Links, lists: Lists, n: Node)
    requires Rings(h, lists) && !OnList(lists, n) && (n in lists ==> lists[n] == [])
    ensures Rings(Inited(h, n), lists[n := []])
  {
    hide Ring, OthersUnlinked;
    var h', lists' := Inited(h, n), lists[n := []];
    ChangedOthers(h, h', lists, n, [], n);
    EmptyRing(h, n);
    forall k | k in lists && k != n ensures Ring(h', k, lists[k]) {
      RingIsThere(h, lists, k);
      OtherRing(h, h', lists, n, k);
    }
  }

  lemma EmptyRing(h: Links, n: Node)
    ensures Ring(Inited(h, n), n, [])
  {
  }

  /** Every call does what it is for, and keeps every list a ring. */
  lemma StepRings(h: Links, lists: Lists, op: Op)
    requires Rings(h, lists) && Allowed(h, lists, op)
    ensures Rings(Relinked(h, lists, op), After(lists, op))
  {
    match op
    case Init(n) => InitedRings(h, lists, n);
    case Append(l, x) =>
      RemovedRings(h, lists, x);
      InsertedRings(Removed(h, x), Off(lists, x), l, x);
    case Remove(x) => RemovedRings(h, lists, x);
    case Shift(l) =>
      OldestIs(h, lists, l);
      RemovedRings(h, lists, lists[l][0]);
  }

  /** shift takes the oldest item, and nothing else. */
  lemma ShiftTakesOldest(h: Links, lists: Lists, l: Node)
    requires Rings(h, lists) && l in lists && lists[l] != []
    ensures After(lists, Shift(l)) == lists[l := lists[l][1..]]
  {
    hide Minus, Ring;
    var x := lists[l][0];
    OldestIs(h, lists, l);
    OffIs(lists, x);
    MinusFirst(lists[l]);
    forall k | k in lists && k != l ensures Minus(lists[k], x) == lists[k] {
      MinusIs(lists[k], x);
    }
  }

  lemma MinusFirst<T>(q: seq<T>)
    requires q != []
    ensures Minus(q, q[0]) == q[1..]
  {
  }

  /** shift on an empty list takes the list itself apart: it is no list after that. */
  lemma ShiftEmpty(h: Links, l: Node, q: seq<Node>)
    requires Closed(h) && Ring(h, l, [])
    ensures h[l].prev == l && !Ring(Removed(h, l), l, q)
  {
    RemoveAlone(h, l);
  }

  // ---------- runs ----------

  ghost predicate AllowedRun(h: Links, lists: Lists, ops: seq<Op>)
    requires Rings(h, lists)
    decreases |ops|
  {
    ops != [] ==>
      Allowed(h, lists, ops[0])
      && (StepRings(h, lists, ops[0]); AllowedRun(Relinked(h, lists, ops[0]), After(lists, ops[0]), ops[1..]))
  }

  ghost function Run(h: Links, lists: Lists, ops: seq<Op>): (Links, Lists)
    requires Rings(h, lists) && AllowedRun(h, lists, ops)
    decreases |ops|
  {
    if ops == [] then (h, lists)
    else
      StepRings(h, lists, ops[0]);
      Run(Relinked(h, lists, ops[0]), After(lists, ops[0]), ops[1..])
  }

  /** New nodes are not linked, and there is no list. */
  lemma NewRings(nodes: set<Node>)
    ensures Rings(map x | x in nodes :: NO_LINKS, map[])
  {
  }

  /** Whatever the calls, on however many lists, the links are those of the lists the calls amount to. */
  lemma {:induction false} RunRings(h: Links, lists: Lists, ops: seq<Op>)
    requires Rings(h, lists) && AllowedRun(h, lists, ops)
    ensures var (h', lists') := Run(h, lists, ops); Rings(h', lists')
    decreases |ops|
  {
    if ops != [] {
      StepRings(h, lists, ops[0]);
      RunRings(Relinked(h, lists, ops[0]), After(lists, ops[0]), ops[1..]);
    }
  }

  /** On the heap. */
  method Call(op: Op, ghost nodes: set<Node>, ghost h: Links, ghost lists: Lists)
    requires Mirrors(nodes, h) && Rings(h, lists) && Allowed(h, lists, op) && (op.Init? ==> op.node in nodes)
    modifies nodes
    ensures Mirrors(nodes, Relinked(h, lists, op))
  {
    match op {
      case Init(n) =>
        LinkList.Init(n, nodes, h);
        assert nodes + {n} == nodes;
      case Append(l, x) =>
        RemovedRings(h, lists, x);
        RingIsThere(Removed(h, x), Off(lists, x), l);
        LinkList.Append(l, x, nodes, h);
      case Remove(x) =>
        LinkList.Remove(x, nodes, h);
      case Shift(l) =>
        OldestIs(h, lists, l);
        assert Ring(h, l, lists[l]);
        var first := LinkList.Shift(l, nodes, h, lists[l]);
    }
  }
}
