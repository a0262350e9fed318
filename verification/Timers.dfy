/** timers.js itself: the operations of IdleTimers on circular linked lists in the heap. */
module Timers {
  import opened LinkList
  import opened Sequences
  import opened IdleTimers

  // ---------- the links and the state they stand for ----------

  /** The sentinel of every list ever made, by its number. */
  type Heads = map<nat, Node>

  /** The lists made so far have the numbers below this one. */
  ghost predicate Counted(heads: Heads, made: nat) {
    forall l: nat :: l in heads <==> l < made
  }

  /** List l is a ring of the items that are on it; a closed one is empty. */
  ghost predicate RingOk(heads: Heads, h: Links, v: State, l: nat)
    requires l in heads
  {
    && heads[l] !in v.timeout && Ring(h, heads[l], ItemsOf(v, l))
    && forall x :: x in ItemsOf(v, l) ==> x in v.on && v.on[x] == l
  }

  /** An item on no list is unlinked or linked to itself. */
  ghost predicate Loose(h: Links, v: State, x: Node) {
    x in h && h[x] == if x in v.alone then Link(x, x) else NO_LINKS
  }

  /** Every list is a ring of its own items, and the other items are on none. */
  ghost predicate Linked(heads: Heads, h: Links, v: State) {
    && Closed(h) && v.lists.Keys <= heads.Keys
    && (forall l :: l in heads ==> RingOk(heads, h, v, l))
    && (forall l, n :: l in heads && n in heads && l != n ==> heads[l] != heads[n])
    && (forall x :: x in v.on ==> x in v.timeout && v.on[x] in v.lists && x in ItemsOf(v, v.on[x]))
    && (forall x :: x in v.timeout && x !in v.on ==> Loose(h, v, x))
    && (forall x :: x in v.alone ==> x in v.timeout && x !in v.on)
  }

  lemma ItemsAreLinked(heads: Heads, h: Links, v: State, x: Node)
    requires Linked(heads, h, v) && x in v.timeout
    ensures x in h
  {
    if x in v.on {
      var l := v.on[x];
      assert RingOk(heads, h, v, l);
      Members(h, heads[l], ItemsOf(v, l));
    } else {
      assert Loose(h, v, x);
    }
  }

  /** An item on a list has links. */
  lemma Linking(h: Links, l: Node, q: seq<Node>, k: nat)
    requires Ring(h, l, q) && k < |q|
    ensures q[k] in h && h[q[k]].next != null
  {
    assert Follows(h, l, q, k);
  }

  /** What an item's next link says. */
  lemma HasLinks(heads: Heads, h: Links, v: State, x: Node)
    requires Linked(heads, h, v) && x in v.timeout && x in h
    ensures h[x].next != null <==> x in v.alone || x in v.on
  {
    if x in v.on {
      var l := v.on[x];
      assert RingOk(heads, h, v, l);
      Linking(h, heads[l], ItemsOf(v, l), IndexOf(ItemsOf(v, l), x));
    } else {
      assert Loose(h, v, x);
    }
  }

  /** Only x, and the nodes of list l, may have other links. */
  ghost predicate SameElsewhere(heads: Heads, h: Links, v: State, h': Links, x: Node, l: int) {
    forall y :: y in h && y != x && !(l in heads && (y == heads[l as nat] || y in ItemsOf(v, l as nat))) ==> y in h' && h'[y] == h[y]
  }

  /** A list that has neither x nor anything of list l stays. */
  lemma OtherListStays(heads: Heads, h: Links, v: State, h': Links, v': State, x: Node, l: int, n: nat)
    requires Linked(heads, h, v) && x in v.timeout && v'.timeout == v.timeout && (x in v.on ==> v.on[x] == l)
    requires n in heads && n != l && ItemsOf(v', n) == ItemsOf(v, n) && SameElsewhere(heads, h, v, h', x, l)
    requires forall y :: y in v.on && y != x ==> y in v'.on && v'.on[y] == v.on[y]
    ensures RingOk(heads, h', v', n)
  {
    hide Ring;
    var q := ItemsOf(v, n);
    assert RingOk(heads, h, v, n);
    RingNodes(h, heads[n], q);
    if l in heads {
      assert RingOk(heads, h, v, l as nat);
    }
    assert forall y :: y == heads[n] || y in q ==> y != x && !(l in heads && (y == heads[l as nat] || y in ItemsOf(v, l as nat)));
    RingStays(h, h', heads[n], q);
  }

  lemma RingNodes(h: Links, l: Node, q: seq<Node>)
    requires Ring(h, l, q)
    ensures l in h && forall y :: y in q ==> y in h
  {
    Members(h, l, q);
  }

  /** An item on no list keeps its links, if the links changed only within list l and for item x. */
  lemma LooseStays(heads: Heads, h: Links, v: State, h': Links, v': State, x: Node, l: int, y: Node)
    requires Linked(heads, h, v) && SameElsewhere(heads, h, v, h', x, l) && v'.alone - {x} == v.alone - {x}
    requires y in v.timeout && y !in v.on && y != x
    ensures Loose(h', v', y)
  {
    hide Ring;
    assert Loose(h, v, y) && (y in v'.alone - {x} <==> y in v.alone - {x});
    if l in heads {
      assert RingOk(heads, h, v, l as nat);
    }
  }

  // ---------- what the operations do to the links ----------

  /** What L.append leaves alone. */
  lemma PutRest(s: State, x: Node, l: nat)
    ensures Put(s, x, l) == s.(lists := Put(s, x, l).lists, on := Put(s, x, l).on)
  {
  }

  /** What the item leaves. */
  lemma TakenFromList(heads: Heads, h: Links, v: State, x: Node)
    requires Linked(heads, h, v) && x in v.on && x in h
    ensures var h', l := Removed(h, x), v.on[x];
      l in heads && h'[x] == NO_LINKS && SameElsewhere(heads, h, v, h', x, l) && RingOk(heads, h', Unlinked(v, x), l)
  {
    var l := v.on[x];
    var q := ItemsOf(v, l);
    assert RingOk(heads, h, v, l);
    RemoveFromRing(h, heads[l], q, IndexOf(q, x));
    MinusIs(q, x);
  }

  lemma TakenAlone(heads: Heads, h: Links, v: State, x: Node)
    requires Linked(heads, h, v) && x in v.timeout && x !in v.on && x in h
    ensures var h' := Removed(h, x); h'[x] == NO_LINKS && SameElsewhere(heads, h, v, h', x, NONE)
  {
    assert Loose(h, v, x);
    RemoveAlone(h, x);
  }

  lemma TakenRings(heads: Heads, h: Links, v: State, h': Links, x: Node, l: int)
    requires Linked(heads, h, v) && x in v.timeout && l == (if x in v.on then v.on[x] as int else NONE) && SameElsewhere(heads, h, v, h', x, l)
    requires l in heads ==> RingOk(heads, h', Unlinked(v, x), l as nat)
    ensures forall n :: n in heads ==> RingOk(heads, h', Unlinked(v, x), n)
  {
    hide Linked, Minus, RingOk, SameElsewhere;
    forall n | n in heads ensures RingOk(heads, h', Unlinked(v, x), n) {
      if n != l {
        OtherListStays(heads, h, v, h', Unlinked(v, x), x, l, n);
      }
    }
  }

  lemma TakenOn(heads: Heads, h: Links, v: State, x: Node)
    requires Linked(heads, h, v)
    ensures var v' := Unlinked(v, x); forall y :: y in v'.on ==> v'.on[y] in v'.lists && y in ItemsOf(v', v'.on[y])
  {
    hide RingOk, Loose, Minus;
    var v' := Unlinked(v, x);
    forall y | y in v'.on ensures v'.on[y] in v'.lists && y in ItemsOf(v', v'.on[y]) {
      OthersStayOn(v, x, y);
    }
  }

  lemma TakenLoose(heads: Heads, h: Links, v: State, h': Links, x: Node, l: int)
    requires Linked(heads, h, v) && SameElsewhere(heads, h, v, h', x, l) && x in h' && h'[x] == NO_LINKS
    ensures var v' := Unlinked(v, x); forall y :: y in v'.timeout && y !in v'.on ==> Loose(h', v', y)
  {
    hide RingOk, SameElsewhere, Minus;
    var v' := Unlinked(v, x);
    forall y | y in v'.timeout && y !in v'.on ensures Loose(h', v', y) {
      if y == x {
        Unlinking(h', v', x);
      } else {
        LooseStays(heads, h, v, h', v', x, l, y);
      }
    }
  }

  /** An item leaves the list it may be on. */
  lemma TakenLinked(heads: Heads, h: Links, v: State, x: Node)
    requires Linked(heads, h, v) && x in v.timeout && x in h
    ensures Closed(h) && Linked(heads, Removed(h, x), Unlinked(v, x)) && Removed(h, x)[x] == NO_LINKS && Removed(h, x).Keys == h.Keys
    ensures x !in Unlinked(v, x).on && x !in Unlinked(v, x).alone
  {
    hide Removed, Unlinked, ItemsOf, RingOk, SameElsewhere, Loose;
    var l := if x in v.on then v.on[x] as int else NONE;
    RemovedClosed(h, x);
    if x in v.on {
      TakenFromList(heads, h, v, x);
    } else {
      TakenAlone(heads, h, v, x);
    }
    TakenRings(heads, h, v, Removed(h, x), x, l);
    TakenOn(heads, h, v, x);
    TakenLoose(heads, h, v, Removed(h, x), x, l);
    UnlinkedSame(v, x);
    UnlinkedRest(v, x);
  }

  lemma Unlinking(h: Links, v: State, x: Node)
    requires x in h && h[x] == NO_LINKS && x !in v.alone
    ensures Loose(h, v, x)
  {
  }

  /** What the end of the list gains. */
  lemma PutOnList(heads: Heads, h: Links, v: State, x: Node, l: nat)
    requires Linked(heads, h, v) && x in v.timeout && x !in v.on && x in h && l in v.lists
    ensures heads[l] in h && h[heads[l]].next != null && h[heads[l]].next in h && heads[l] != x
    ensures var h' := Inserted(h, heads[l], x);
      && SameElsewhere(heads, h, v, h', x, l) && RingOk(heads, h', Put(v, x, l), l) && Closed(h') && h'.Keys == h.Keys
  {
    assert RingOk(heads, h, v, l);
    InsertIntoRing(h, heads[l], ItemsOf(v, l), x);
    InsertedClosed(h, heads[l], x);
  }

  /** An item that is on no list goes to the end of one. */
  lemma PutLinked(heads: Heads, h: Links, v: State, x: Node, l: nat)
    requires Linked(heads, h, v) && x in v.timeout && x !in v.on && x !in v.alone && x in h && l in v.lists
    ensures heads[l] in h && h[heads[l]].next != null && h[heads[l]].next in h && heads[l] != x
    ensures Linked(heads, Inserted(h, heads[l], x), Put(v, x, l)) && Inserted(h, heads[l], x).Keys == h.Keys
  {
    hide Ring, RingOk, SameElsewhere, Loose, Inserted, Closed;
    PutOnList(heads, h, v, x, l);
    var h', v' := Inserted(h, heads[l], x), Put(v, x, l);
    forall n | n in heads ensures RingOk(heads, h', v', n) {
      if n != l {
        OtherListStays(heads, h, v, h', v', x, l, n);
      }
    }
    forall y | y in v'.timeout && y !in v'.on ensures Loose(h', v', y) {
      LooseStays(heads, h, v, h', v', x, l, y);
    }
  }

  /** A new node does not disturb a list. */
  lemma InitedElsewhere(heads: Heads, h: Links, v: State, list: Node, l: nat)
    requires l in heads && RingOk(heads, h, v, l) && list !in h
    ensures Ring(Inited(h, list), heads[l], ItemsOf(v, l)) && heads[l] != list
  {
    RingNodes(h, heads[l], ItemsOf(v, l));
    RingStays(h, Inited(h, list), heads[l], ItemsOf(v, l));
  }

  /** A list stays as it is when others are made, closed or watched anew. */
  lemma RingSame(heads: Heads, h: Links, v: State, heads': Heads, v': State, l: nat)
    requires l in heads && RingOk(heads, h, v, l) && l in heads' && heads'[l] == heads[l] && ItemsOf(v', l) == ItemsOf(v, l)
    requires v'.on == v.on && v'.timeout.Keys == v.timeout.Keys
    ensures RingOk(heads', h, v', l)
  {
    hide Ring, ItemsOf;
  }

  lemma LooseSame(h: Links, v: State, h': Links, v': State)
    requires forall y :: y in v.timeout && y !in v.on ==> Loose(h, v, y) && y in h' && h'[y] == h[y]
    requires v'.alone == v.alone && v'.timeout.Keys == v.timeout.Keys && v'.on == v.on
    ensures forall y :: y in v'.timeout && y !in v'.on ==> Loose(h', v', y)
  {
    assert forall y :: y in v'.timeout <==> y in v.timeout;
  }

  lemma CreatedRings(heads: Heads, h: Links, v: State, list: Node, m: nat)
    requires Linked(heads, h, v) && m !in v.table && v.made !in heads && list !in h && list !in v.timeout
    ensures var heads' := heads[v.made := list];
      forall l :: l in heads' ==> RingOk(heads', Inited(h, list), Listed(v, m), l) && (l != v.made ==> heads'[l] != list)
  {
    hide Ring, Inited, Loose;
    var heads', h', v' := heads[v.made := list], Inited(h, list), Listed(v, m);
    NewRing(h, list);
    forall l | l in heads' ensures RingOk(heads', h', v', l) && (l != v.made ==> heads'[l] != list) {
      if l != v.made {
        assert RingOk(heads, h, v, l);
        InitedElsewhere(heads, h, v, list, l);
      }
    }
  }

  /** A new list. */
  lemma CreatedLinked(heads: Heads, h: Links, v: State, list: Node, m: nat)
    requires Linked(heads, h, v) && m !in v.table && v.made !in heads && list !in h && list !in v.timeout
    ensures Linked(heads[v.made := list], Inited(h, list), Listed(v, m))
  {
    hide RingOk;
    NewRing(h, list);
    CreatedRings(heads, h, v, list, m);
    LooseSame(h, v, Inited(h, list), Listed(v, m));
  }

  lemma NewRing(h: Links, list: Node)
    requires Closed(h)
    ensures Ring(Inited(h, list), list, []) && Closed(Inited(h, list))
  {
  }

  /** The links are those of any state with the same items on its lists. */
  lemma SameItems(heads: Heads, h: Links, v: State, v': State)
    requires Linked(heads, h, v) && v'.on == v.on && v'.alone == v.alone && v'.timeout.Keys == v.timeout.Keys
    requires v'.lists.Keys <= v.lists.Keys && forall l :: ItemsOf(v', l) == ItemsOf(v, l)
    ensures Linked(heads, h, v')
  {
    hide RingOk, ItemsOf;
    forall l | l in heads ensures RingOk(heads, h, v', l) {
      RingSame(heads, h, v, heads, v', l);
    }
    forall x | x in v'.on ensures v'.on[x] in v'.lists && x in ItemsOf(v', v'.on[x]) {
      assert x in ItemsOf(v', v.on[x]);
      HasItems(v', v.on[x], x);
    }
    LooseSame(h, v, h, v');
  }

  lemma HasItems(v: State, l: nat, x: Node)
    requires x in ItemsOf(v, l)
    ensures l in v.lists
  {
  }

  /** An item on no list is none of a list's nodes. */
  lemma RetimedRing(heads: Heads, h: Links, v: State, x: Node, link: Link, v': State, l: nat)
    requires l in heads && RingOk(heads, h, v, l) && x in v.timeout && x !in v.on
    requires v'.on == v.on && v'.lists == v.lists && v'.timeout.Keys == v.timeout.Keys
    ensures RingOk(heads, h[x := link], v', l)
  {
    hide Ring;
    RingNodes(h, heads[l], ItemsOf(v, l));
    RingStays(h, h[x := link], heads[l], ItemsOf(v, l));
  }

  lemma RetimedLoose(h: Links, v: State, x: Node, t: int, alone: set<Node>)
    requires forall y :: y in v.timeout && y !in v.on ==> Loose(h, v, y)
    requires x in h && alone - {x} == v.alone - {x}
    ensures var h', v' := h[x := if x in alone then Link(x, x) else NO_LINKS], Retimed(v, x, t, alone);
      forall y :: y in v'.timeout && y !in v'.on ==> Loose(h', v', y)
  {
    var h', v' := h[x := if x in alone then Link(x, x) else NO_LINKS], Retimed(v, x, t, alone);
    forall y | y in v'.timeout && y !in v'.on ensures Loose(h', v', y) {
      assert y != x ==> Loose(h, v, y) && (y in alone - {x} <==> y in v.alone - {x});
    }
  }

  lemma RetimedClosed(h: Links, x: Node, link: Link)
    requires Closed(h) && x in h && (link == NO_LINKS || link == Link(x, x))
    ensures Closed(h[x := link])
  {
  }

  /** An item on no list gets another timeout, and other links of its own. */
  lemma RetimedLinked(heads: Heads, h: Links, v: State, x: Node, t: int, alone: set<Node>)
    requires Linked(heads, h, v) && x in v.timeout && x in h && x !in v.on && alone - {x} == v.alone - {x}
    ensures Linked(heads, h[x := if x in alone then Link(x, x) else NO_LINKS], Retimed(v, x, t, alone))
  {
    hide Ring, RingOk, Loose, Closed;
    var link, v' := if x in alone then Link(x, x) else NO_LINKS, Retimed(v, x, t, alone);
    RetimedClosed(h, x, link);
    forall l | l in heads ensures RingOk(heads, h[x := link], v', l) {
      RetimedRing(heads, h, v, x, link, v', l);
    }
    RetimedLoose(h, v, x, t, alone);
    forall y | y in v'.alone ensures y in v'.timeout && y !in v'.on {
      assert y != x ==> y in alone - {x};
    }
  }

  // ---------- the table and the watchers ----------

  /** A list object's watcher: the timeout it was made for, and when it goes off. */
  datatype Watcher = Watcher(msecs: nat, due: int)

  /** Every list that is not closed has its watcher, and the table has lists of the right timeouts. */
  ghost predicate Kept(watchers: map<nat, Watcher>, v: State) {
    && watchers.Keys == v.lists.Keys
    && (forall l :: l in v.lists ==> watchers[l] == Watcher(v.lists[l].ms, v.lists[l].due))
    && (forall m :: m in v.table ==> v.table[m] in v.lists && v.lists[v.table[m]].ms == m)
  }

  lemma CountedNext(heads: Heads, made: nat, list: Node)
    requires Counted(heads, made)
    ensures made !in heads && Counted(heads[made := list], made + 1)
  {
  }

  lemma UnlinkedKept(watchers: map<nat, Watcher>, v: State, x: Node)
    requires Kept(watchers, v)
    ensures Kept(watchers, Unlinked(v, x))
  {
    hide Minus;
  }

  lemma PutKept(watchers: map<nat, Watcher>, v: State, x: Node, l: nat)
    requires Kept(watchers, v)
    ensures Kept(watchers, Put(v, x, l))
  {
  }

  lemma ListedKept(watchers: map<nat, Watcher>, v: State, m: nat)
    requires Kept(watchers, v) && m !in v.table && v.made !in v.lists
    ensures Kept(watchers[v.made := Watcher(m, v.loop + m)], Listed(v, m))
  {
  }

  lemma ClosedKept(watchers: map<nat, Watcher>, v: State, m: nat)
    requires Kept(watchers, v) && m in v.table && ItemsOf(v, v.table[m]) == []
    ensures Kept(watchers - {v.table[m]}, ClosedIfEmpty(v, m))
  {
  }

  lemma OverKept(watchers: map<nat, Watcher>, v: State, l: nat, m: nat)
    requires Kept(watchers, v) && Numbered(v, l, m)
    ensures Kept(watchers - {l}, Over(v, l, m))
  {
  }

  lemma RestartedKept(watchers: map<nat, Watcher>, v: State, l: nat, m: nat, now: int)
    requires Kept(watchers, v) && Numbered(v, l, m) && l in v.lists && ItemsOf(v, l) != [] && ItemsOf(v, l)[0] in v.start
    ensures Kept(watchers[l := Watcher(m, v.loop + (m - (now - v.start[ItemsOf(v, l)[0]])))], Restarted(v, l, m, now))
  {
  }

  /** What the module's tables and the links have to do with the state. */
  ghost predicate Sound(heads: Heads, watchers: map<nat, Watcher>, h: Links, v: State) {
    Counted(heads, v.made) && Kept(watchers, v) && Linked(heads, h, v)
  }

  lemma TakenSound(heads: Heads, watchers: map<nat, Watcher>, h: Links, v: State, x: Node)
    requires Sound(heads, watchers, h, v) && x in v.timeout
    ensures x in h && Closed(h) && Removed(h, x).Keys == h.Keys && Removed(h, x)[x] == NO_LINKS
    ensures Sound(heads, watchers, Removed(h, x), Unlinked(v, x)) && x !in Unlinked(v, x).on && x !in Unlinked(v, x).alone
  {
    hide Counted, RingOk, Loose, Removed, Unlinked;
    ItemsAreLinked(heads, h, v, x);
    TakenLinked(heads, h, v, x);
    UnlinkedKept(watchers, v, x);
    UnlinkedRest(v, x);
  }

  lemma PutSound(heads: Heads, watchers: map<nat, Watcher>, h: Links, v: State, x: Node, l: nat)
    requires Sound(heads, watchers, h, v) && x in v.timeout && x !in v.on && x !in v.alone && x in h && l in v.lists
    ensures l in heads && heads[l] in h && h[heads[l]].next != null && h[heads[l]].next in h && heads[l] != x
    ensures Sound(heads, watchers, Inserted(h, heads[l], x), Put(v, x, l)) && Inserted(h, heads[l], x).Keys == h.Keys
  {
    hide Counted, RingOk, Loose, Put;
    PutLinked(heads, h, v, x, l);
    PutKept(watchers, v, x, l);
    PutRest(v, x, l);
  }

  lemma RetimedSound(heads: Heads, watchers: map<nat, Watcher>, h: Links, v: State, x: Node, t: int, alone: set<Node>)
    requires Sound(heads, watchers, h, v) && x in v.timeout && x in h && x !in v.on && alone - {x} == v.alone - {x}
    ensures Sound(heads, watchers, h[x := if x in alone then Link(x, x) else NO_LINKS], Retimed(v, x, t, alone))
  {
    hide Counted, RingOk, Loose;
    RetimedLinked(heads, h, v, x, t, alone);
  }

  /** The links are those of any state with the same items on its lists. */
  lemma SameSound(heads: Heads, watchers: map<nat, Watcher>, h: Links, v: State, watchers': map<nat, Watcher>, v': State)
    requires Sound(heads, watchers, h, v) && Kept(watchers', v') && v'.made == v.made
    requires v'.on == v.on && v'.alone == v.alone && v'.timeout.Keys == v.timeout.Keys
    requires v'.lists.Keys <= v.lists.Keys && forall l :: ItemsOf(v', l) == ItemsOf(v, l)
    ensures Sound(heads, watchers', h, v')
  {
    hide Counted, RingOk, Loose, ItemsOf, Kept;
    SameItems(heads, h, v, v');
  }

  lemma ClosedSound(heads: Heads, watchers: map<nat, Watcher>, h: Links, v: State, m: nat)
    requires Sound(heads, watchers, h, v) && m in v.table && ItemsOf(v, v.table[m]) == []
    ensures Sound(heads, watchers - {v.table[m]}, h, ClosedIfEmpty(v, m))
  {
    hide Counted, Linked;
    ClosedKept(watchers, v, m);
    SameSound(heads, watchers, h, v, watchers - {v.table[m]}, ClosedIfEmpty(v, m));
  }

  lemma OverSound(heads: Heads, watchers: map<nat, Watcher>, h: Links, v: State, l: nat, m: nat)
    requires Sound(heads, watchers, h, v) && Numbered(v, l, m) && ItemsOf(v, l) == []
    ensures Sound(heads, watchers - {l}, h, Over(v, l, m))
  {
    hide Counted, Linked;
    OverKept(watchers, v, l, m);
    SameSound(heads, watchers, h, v, watchers - {l}, Over(v, l, m));
  }

  lemma RestartedSound(heads: Heads, watchers: map<nat, Watcher>, h: Links, v: State, l: nat, m: nat, now: int)
    requires Sound(heads, watchers, h, v) && Numbered(v, l, m) && l in v.lists && ItemsOf(v, l) != [] && ItemsOf(v, l)[0] in v.start
    ensures Sound(heads, watchers[l := Watcher(m, v.loop + (m - (now - v.start[ItemsOf(v, l)[0]])))], h, Restarted(v, l, m, now))
  {
    hide Counted, Linked;
    RestartedKept(watchers, v, l, m, now);
    var due := v.loop + (m - (now - v.start[ItemsOf(v, l)[0]]));
    SameSound(heads, watchers, h, v, watchers[l := Watcher(m, due)], Restarted(v, l, m, now));
  }

  /** The start of an item and the clock have nothing to do with it. */
  lemma TimesSound(heads: Heads, watchers: map<nat, Watcher>, h: Links, v: State, start: map<Node, int>, clock: int)
    requires Sound(heads, watchers, h, v)
    ensures Sound(heads, watchers, h, v.(start := start, clock := clock))
  {
    hide Counted, Linked;
    SameSound(heads, watchers, h, v, watchers, v.(start := start, clock := clock));
  }

  lemma ListedSound(heads: Heads, watchers: map<nat, Watcher>, h: Links, v: State, list: Node, m: nat)
    requires Sound(heads, watchers, h, v) && m !in v.table && list !in h && list !in v.timeout
    ensures Sound(heads[v.made := list], watchers[v.made := Watcher(m, v.loop + m)], Inited(h, list), Listed(v, m))
  {
    hide RingOk, Loose, Inited;
    CountedNext(heads, v.made, list);
    CreatedLinked(heads, h, v, list, m);
    ListedKept(watchers, v, m);
  }

  // ---------- the operations, by parts ----------

  /** timers.js sets an item's start before it makes a list and before it unlinks the item. */
  lemma ActiveByParts(s: State, x: Node, m: nat)
    requires x in s.timeout && s.timeout[x] == m
    ensures var s1 := Listed(Started(s, x), m); DoActive(s, x) == Put(Unlinked(s1, x), x, s1.table[m])
  {
    hide Put, Unlinked;
    StartedUnlinked(Listed(s, m), x);
  }

  lemma StartedUnlinked(s: State, x: Node)
    ensures Started(Unlinked(s, x), x) == Unlinked(Started(s, x), x)
  {
    hide Minus;
    if x in s.on && s.on[x] in s.lists {
      assert Started(Unlinked(s, x), x).lists == Unlinked(Started(s, x), x).lists;
    }
  }

  lemma EnrollByParts(s: State, x: Node, msecs: nat, linked: bool)
    requires x in s.timeout && linked == (x in s.alone || x in s.on)
    ensures var s' := if linked then DoUnenroll(s, x) else s;
      DoEnroll(s, x, msecs) == Retimed(Retimed(s', x, msecs, s'.alone), x, msecs, s'.alone + {x})
  {
    hide DoUnenroll;
    var s' := if linked then DoUnenroll(s, x) else s;
    assert s'.timeout[x := msecs][x := msecs] == s'.timeout[x := msecs];
  }

  /** A drain begun in state v has come to state s, having fired some items, with scripts for the others. */
  ghost predicate Drained(v: State, l: nat, m: nat, now: int, scripts: seq<seq<Action>>, silent: set<Node>,
                          s: State, todo: seq<seq<Action>>, fired: seq<Node>)
    requires Inv(v, l) && Numbered(v, l, m)
  {
    && Inv(s, l) && Numbered(s, l, m)
    && Drain(v, l, m, now, scripts, silent).0 == Drain(s, l, m, now, todo, silent).0
    && Drain(v, l, m, now, scripts, silent).1 == fired + Drain(s, l, m, now, todo, silent).1
  }

  lemma DrainedFurther(v: State, l: nat, m: nat, now: int, scripts: seq<seq<Action>>, silent: set<Node>,
                       s: State, todo: seq<seq<Action>>, fired: seq<Node>)
    requires Inv(v, l) && Numbered(v, l, m) && Drained(v, l, m, now, scripts, silent, s, todo, fired)
    requires ItemsOf(s, l) != [] && ItemsOf(s, l)[0] in s.start && IsDue(now, s.start[ItemsOf(s, l)[0]], m)
    ensures var x, s' := ItemsOf(s, l)[0], Fired(s, l, First(todo), silent);
      var todo' := if x in silent then todo else Rest(todo);
      && Drained(v, l, m, now, scripts, silent, s', todo', if x in silent then fired else fired + [x])
      && Decreases(s, todo, s', todo', l) && HeadStarted(s', l)
  {
    hide Inv, Drain, Fired, Perform, Unlinked, ItemsOf;
    DrainRound(s, l, m, now, todo, silent, fired);
    InvHeadStarted(Fired(s, l, First(todo), silent), l);
  }

  /** What the head of the drain loop makes of state s: the end of the drain, or nothing if an item is due. */
  ghost predicate AtHead(s: State, s': State, l: nat, m: nat, now: int, over: bool) {
    if over then Stops(s, l, m, now) && s' == Stopped(s, l, m, now)
    else s' == s && ItemsOf(s, l) != [] && ItemsOf(s, l)[0] in s.start && IsDue(now, s.start[ItemsOf(s, l)[0]], m)
  }

  predicate HeadStarted(s: State, l: nat) {
    ItemsOf(s, l) != [] ==> ItemsOf(s, l)[0] in s.start
  }

  lemma InvHeadStarted(s: State, l: nat)
    requires Inv(s, l)
    ensures HeadStarted(s, l)
  {
    ItemsTimed(s, l, l);
  }

  // ---------- the module ----------

  /** The module's state. The fields _idleStart and _idleTimeout that timers.js puts on the items are maps here; the links are in the
      items. `table` is the object `lists`, whose lists are numbered in the order of making; a list's sentinel stays when it is closed. */
  class Module {
    const silent: set<Node>  // the items without an _onTimeout
    var table: map<nat, nat>
    var heads: Heads
    var watchers: map<nat, Watcher>  // those not closed
    var made: nat
    var start: map<Node, int>
    var timeout: map<Node, int>
    var clock: int
    var loop: int
    ghost var nodes: set<Node>  // the items and the sentinels
    ghost var h: Links          // their links
    ghost var v: State          // the state on values

    ghost predicate Valid()
      reads this, nodes
    {
      && v == State(v.lists, table, made, v.on, start, timeout, v.alone, clock, loop)
      && Sound(heads, watchers, h, v) && Mirrors(nodes, h)
    }

    constructor (items: set<Node>, silent: set<Node>, clock: int)
      requires forall x :: x in items ==> x.idleNext == null && x.idlePrev == null
      ensures Valid() && v == Initial(items, clock) && this.silent == silent && nodes == items
    {
      this.silent := silent;
      table, heads, watchers, made, start, timeout := map[], map[], map[], 0, map[], map x | x in items :: -1;
      this.clock, loop := clock, clock;
      nodes, h, v := items, map x | x in items :: NO_LINKS, Initial(items, clock);
    }

    /** A list made has its sentinel, and is a ring. */
    lemma ListIsRing(l: nat)
      requires Valid() && l < made
      ensures Mirrors(nodes, h) && Closed(h) && l in heads && Ring(h, heads[l], ItemsOf(v, l))
      ensures forall x :: x in ItemsOf(v, l) ==> x in timeout
    {
      assert RingOk(heads, h, v, l);
    }

    lemma ListsAreMade()
      requires Valid()
      ensures forall l :: l in v.lists ==> l < made
      ensures forall m :: m in table ==> table[m] in v.lists
    {
    }

    lemma ItemIsLinked(item: Node)
      requires Valid() && item in timeout
      ensures item in h && item.idleNext == h[item].next
      ensures h[item].next != null <==> item in v.alone || item in v.on
    {
      ItemsAreLinked(heads, h, v, item);
      HasLinks(heads, h, v, item);
    }

    /** L.append to a list. */
    method Place(item: Node, l: nat)
      requires Valid() && item in timeout && l in heads && l in v.lists
      modifies this`h, this`v, nodes
      ensures Valid() && v == Put(Unlinked(old(v), item), item, l)
    {
      hide Sound, Mirrors, Unlinked, Put;
      TakenSound(heads, watchers, h, v, item);
      UnlinkedRest(v, item);
      UnlinkedSame(v, item);
      ghost var h1, v1 := Removed(h, item), Unlinked(v, item);
      PutSound(heads, watchers, h1, v1, item, l);
      PutRest(v1, item, l);
      Append(heads[l], item, nodes, h);
      h, v := Inserted(h1, heads[l], item), Put(v1, item, l);
    }

    /** L.remove. */
    method Take(item: Node)
      requires Valid() && item in timeout
      modifies this`h, this`v, nodes
      ensures Valid() && v == Unlinked(old(v), item)
      ensures item in h && h[item] == NO_LINKS && item !in v.on
    {
      hide Sound, Mirrors, Unlinked;
      TakenSound(heads, watchers, h, v, item);
      UnlinkedRest(v, item);
      Remove(item, nodes, h);
      h, v := Removed(h, item), Unlinked(v, item);
    }

    /** A new, empty list with a watcher started against the loop's time. */
    method Create(msecs: nat)
      requires Valid() && msecs !in table
      modifies this`table, this`heads, this`watchers, this`made, this`nodes, this`h, this`v
      ensures Valid() && fresh(nodes - old(nodes)) && v == Listed(old(v), msecs)
    {
      hide Linked, Mirrors, Inited;
      var list := new Node();
      NewToAll(list);
      Init(list, nodes, h);
      Adopt(list, msecs);
    }

    lemma NewToAll(list: Node)
      requires Valid() && list !in nodes
      ensures list !in h && list !in timeout
    {
      forall x | x in timeout ensures x in h {
        ItemsAreLinked(heads, h, v, x);
      }
    }

    /** A list that has been made takes its place. */
    method Adopt(list: Node, msecs: nat)
      requires Valid() && msecs !in table && list !in h && list !in timeout && Mirrors(nodes + {list}, Inited(h, list))
      modifies this`table, this`heads, this`watchers, this`made, this`nodes, this`h, this`v
      ensures Valid() && nodes == old(nodes) + {list} && v == Listed(old(v), msecs)
    {
      hide Sound, Mirrors, Inited, Listed;
      ListedSound(heads, watchers, h, v, list, msecs);
      ListedRest(v, msecs);
      ghost var s := Listed(v, msecs);
      heads, watchers := heads[made := list], watchers[made := Watcher(msecs, loop + msecs)];
      table, made := table[msecs := made], made + 1;
      nodes, h, v := nodes + {list}, Inited(h, list), s;
    }

    /** An item is started now, wherever it is. */
    method Begin(item: Node)
      requires Valid()
      modifies this`start, this`v
      ensures Valid() && v == Started(old(v), item)
    {
      hide Sound, Mirrors;
      TimesSound(heads, watchers, h, v, start[item := clock], clock);
      start := start[item := clock];
      v := v.(start := start);
    }

    /** timers.js writes back the item's own timeout here as well. */
    method Insert(item: Node, msecs: nat)
      requires Valid() && item in timeout && timeout[item] == msecs
      requires msecs in table ==> ItemsOf(v, table[msecs]) == []
      modifies this`table, this`heads, this`watchers, this`made, this`nodes, this`h, this`v, this`start, nodes
      ensures Valid() && fresh(nodes - old(nodes)) && v == DoActive(old(v), item)
    {
      hide Sound, Mirrors, Unlinked, Put;
      ActiveByParts(v, item, msecs);
      Begin(item);
      if msecs !in table {
        Create(msecs);
      }
      ListsAreMade();
      ListIsRing(table[msecs]);
      Place(item, table[msecs]);
    }

    method Active(item: Node)
      requires Valid() && item in timeout
      modifies this`table, this`heads, this`watchers, this`made, this`nodes, this`h, this`v, this`start, nodes
      ensures Valid() && fresh(nodes - old(nodes)) && v == DoActive(old(v), item)
    {
      hide Sound, Mirrors, Unlinked, Put;
      var msecs := timeout[item];
      if msecs >= 0 {
        var empty := true;
        ListsAreMade();
        if msecs in table {
          ListIsRing(table[msecs]);
          empty := IsEmpty(heads[table[msecs]], nodes, h, ItemsOf(v, table[msecs]));
        }
        if empty {
          Insert(item, msecs);
        } else {
          ActiveByParts(v, item, msecs);
          Begin(item);
          Place(item, table[msecs]);
        }
      }
    }

    /** Stops the watcher of the list for a timeout and takes it out of the table, if it is empty. */
    method CloseIfEmpty(m: int)
      requires Valid()
      modifies this`table, this`watchers, this`v
      ensures Valid() && v == ClosedIfEmpty(old(v), m)
    {
      hide Sound, Mirrors;
      if m in table {
        ListsAreMade();
        var l := table[m];
        ListIsRing(l);
        var empty := IsEmpty(heads[l], nodes, h, ItemsOf(v, l));
        if empty {
          ClosedSound(heads, watchers, h, v, m);
          watchers, table, v := watchers - {l}, table - {m as nat}, ClosedIfEmpty(v, m);
        }
      }
    }

    lemma ItemIsLoose(item: Node)
      requires Valid() && item in timeout && item !in v.on
      ensures item in h && h[item] == if item in v.alone then Link(item, item) else NO_LINKS
    {
      assert Loose(h, v, item);
    }

    /** Gives an item that is on no list another timeout. */
    method Retime(item: Node, msecs: int)
      requires Valid() && item in timeout && item in h && item !in v.on
      modifies this`v, this`timeout
      ensures Valid() && v == Retimed(old(v), item, msecs, old(v).alone)
    {
      hide Sound, Mirrors;
      ItemIsLoose(item);
      RetimedSound(heads, watchers, h, v, item, msecs, v.alone);
      assert h[item := h[item]] == h;
      timeout := timeout[item := msecs];
      v := v.(timeout := timeout);
    }

    method Unenroll(item: Node)
      requires Valid() && item in timeout
      modifies this`table, this`watchers, this`h, this`v, this`timeout, nodes
      ensures Valid() && v == DoUnenroll(old(v), item) && item in timeout && item in h && item !in v.on
    {
      hide Sound, Mirrors, Unlinked, ClosedIfEmpty;
      DropKeeps(v, item);
      Take(item);
      CloseIfEmpty(timeout[item]);
      Retime(item, -1);
    }

    /** Links an item that is on no list to itself. */
    method Reset(item: Node)
      requires Valid() && item in timeout && item in h && item !in v.on
      modifies this`h, this`v, nodes
      ensures Valid() && v == old(v).(alone := old(v).alone + {item})
    {
      hide Sound, Mirrors;
      RetimedSound(heads, watchers, h, v, item, timeout[item], v.alone + {item});
      assert timeout[item := timeout[item]] == timeout;
      NodesAre();
      Init(item, nodes, h);
      h, v := Inited(h, item), v.(alone := v.alone + {item});
      assert nodes + {item} == nodes;
    }

    lemma NodesAre()
      requires Valid()
      ensures h.Keys == nodes
    {
    }

    method Enroll(item: Node, msecs: nat)
      requires Valid() && item in timeout
      modifies this`table, this`watchers, this`h, this`v, this`timeout, nodes
      ensures Valid() && v == DoEnroll(old(v), item, msecs)
    {
      hide Sound, Mirrors, DoUnenroll, DoEnroll;
      ItemIsLinked(item);
      EnrollByParts(v, item, msecs, item.idleNext != null);
      if item.idleNext != null {
        Unenroll(item);
      }
      Retime(item, msecs);
      Reset(item);
    }

    /** One action of a callback, or of anyone. */
    method Do(a: Action)
      requires Valid()
      modifies this`table, this`heads, this`watchers, this`made, this`nodes, this`h, this`v, this`start, this`timeout, this`clock, nodes
      ensures Valid() && fresh(nodes - old(nodes)) && v == Act(old(v), a)
    {
      hide Sound, Mirrors, DoActive, DoEnroll, DoUnenroll;
      match a {
        case Wait(ms) =>
          TimesSound(heads, watchers, h, v, start, clock + ms);
          clock := clock + ms;
          v := v.(clock := clock);
        case Active(x) =>
          if x in timeout {
            Active(x);
          }
        case Enroll(x, msecs) =>
          if x in timeout {
            Enroll(x, msecs);
          }
        case Unenroll(x) =>
          if x in timeout {
            Unenroll(x);
          }
      }
    }

    /** Runs a callback. */
    method Run(script: seq<Action>)
      requires Valid()
      modifies this`table, this`heads, this`watchers, this`made, this`nodes, this`h, this`v, this`start, this`timeout, this`clock, nodes
      ensures Valid() && fresh(nodes - old(nodes)) && v == Perform(old(v), script)
    {
      hide Sound, Mirrors, Act;
      assert script[0..] == script;
      for i := 0 to |script|
        invariant Valid() && fresh(nodes - old(nodes))
        invariant Perform(old(v), script) == Perform(v, script[i..])
      {
        assert script[i..][1..] == script[i + 1..];
        Do(script[i]);
      }
    }

    /** The oldest item of a list leaves it. */
    method Shift(l: nat) returns (first: Node)
      requires Valid() && l in heads && ItemsOf(v, l) != []
      modifies this`h, this`v, nodes
      ensures Valid() && v == Shifted(old(v), l) && first == ItemsOf(old(v), l)[0]
    {
      hide Sound, Mirrors, Unlinked;
      HeadsAreMade(l);
      ListIsRing(l);
      RingNodes(h, heads[l], ItemsOf(v, l));
      first := Peek(heads[l], nodes, h, ItemsOf(v, l));
      Take(first);
    }

    lemma HeadsAreMade(l: nat)
      requires Valid() && l in heads
      ensures l < made
    {
    }

    /** The head of the drain loop: the item to be fired next, or null when the drain is over. The list may have been closed by a
        callback, and be closed again. */
    method Next(l: nat, m: nat, now: int) returns (first: Node?)
      requires Valid() && l in heads && Numbered(v, l, m) && HeadStarted(v, l)
      modifies this`table, this`watchers, this`v
      ensures Valid() && AtHead(old(v), v, l, m, now, first == null)
    {
      hide Sound, Mirrors;
      ListIsRing(l);
      first := Peek(heads[l], nodes, h, ItemsOf(v, l));
      if first == null {
        Close(l, m);
      } else if (now - start[first]) + 1 < m {
        Restart(l, m, now - start[first]);
        first := null;
      }
    }

    /** Closes the drained list, and takes whatever list there is for its timeout out of the table. */
    method Close(l: nat, m: nat)
      requires Valid() && Numbered(v, l, m) && ItemsOf(v, l) == []
      modifies this`table, this`watchers, this`v
      ensures Valid() && v == Over(old(v), l, m)
    {
      hide Sound, Mirrors;
      OverSound(heads, watchers, h, v, l, m);
      watchers, table, v := watchers - {l}, table - {m}, Over(v, l, m);
    }

    /** Starts the watcher again, for the rest of the oldest item's time. */
    method Restart(l: nat, m: nat, diff: int)
      requires Valid() && Numbered(v, l, m) && ItemsOf(v, l) != [] && ItemsOf(v, l)[0] in v.start
      modifies this`watchers, this`v
      ensures Valid() && l in old(v).lists && v == Restarted(old(v), l, m, diff + old(v).start[ItemsOf(old(v), l)[0]])
    {
      hide Sound, Mirrors;
      ghost var now := diff + v.start[ItemsOf(v, l)[0]];
      RestartedSound(heads, watchers, h, v, l, m, now);
      v := Restarted(v, l, m, now);
      watchers := watchers[l := Watcher(m, loop + (m - diff))];
    }

    /** Takes the oldest item off its list and runs its callback, if it has one. */
    method FireNext(l: nat, script: seq<Action>) returns (item: Node)
      requires Valid() && l in heads && ItemsOf(v, l) != []
      modifies this`table, this`heads, this`watchers, this`made, this`nodes, this`h, this`v, this`start, this`timeout, this`clock, nodes
      ensures Valid() && fresh(nodes - old(nodes)) && item == ItemsOf(old(v), l)[0]
      ensures v == Fired(old(v), l, script, silent)
    {
      hide Sound, Mirrors, Unlinked, Perform;
      item := Shift(l);
      if item !in silent {
        Run(script);
      }
    }

    /** The rest of the drain loop's body: fires the oldest item and goes back to the head. */
    method Round(l: nat, m: nat, now: int, script: seq<Action>) returns (item: Node, first: Node?)
      requires Valid() && l in heads && ItemsOf(v, l) != []
      requires var s := Fired(v, l, script, silent); HeadStarted(s, l) && Numbered(s, l, m)
      modifies this`table, this`heads, this`watchers, this`made, this`nodes, this`h, this`v, this`start, this`timeout, this`clock, nodes
      ensures Valid() && fresh(nodes - old(nodes)) && item == ItemsOf(old(v), l)[0]
      ensures AtHead(Fired(old(v), l, script, silent), v, l, m, now, first == null) && l in heads
    {
      hide Sound, Mirrors, Fired, AtHead, HeadStarted;
      item := FireNext(l, script);
      MadeHasHead(l);
      first := Next(l, m, now);
    }

    lemma MadeHasHead(l: nat)
      requires Valid() && l < made
      ensures l in heads
    {
    }

    /** The callback of list l's watcher; callback k of the run performs scripts[k], and those beyond do nothing. */
    method OnTimeout(l: nat, scripts: seq<seq<Action>>) returns (fired: seq<Node>)
      requires Valid() && Inv(v, l) && l in watchers
      modifies this`table, this`heads, this`watchers, this`made, this`nodes, this`h, this`v, this`start, this`timeout, this`clock, nodes
      ensures Numbered(old(v), l, old(watchers)[l].msecs)
      ensures Valid() && v == Drain(old(v), l, old(watchers)[l].msecs, old(clock), scripts, silent).0
      ensures fired == Drain(old(v), l, old(watchers)[l].msecs, old(clock), scripts, silent).1
    {
      hide Sound, Mirrors, QueueOk, WatchOk, Fired, Drain, Inv, ItemsOf, Stopped;
      var m, now, todo := watchers[l].msecs, clock, scripts;
      WatchedIs(l);
      MadeHasHead(l);
      fired := [];
      ghost var s := v;  // the state when the loop head is reached
      InvHeadStarted(s, l);
      var first := Next(l, m, now);
      while first != null
        invariant Valid() && l in heads && forall x :: x in nodes ==> x in old(nodes) || fresh(x)
        invariant Drained(old(v), l, m, now, scripts, silent, s, todo, fired)
        invariant AtHead(s, v, l, m, now, first == null)
        decreases |todo|, |ItemsOf(s, l)|
      {
        DrainedFurther(old(v), l, m, now, scripts, silent, s, todo, fired);
        s := Fired(s, l, First(todo), silent);
        var item;
        item, first := Round(l, m, now, First(todo));
        if item !in silent {
          fired := fired + [item];
          todo := Rest(todo);
        }
      }
      DrainEnds(s, l, m, now, todo, silent, fired);
    }

    lemma WatchedIs(l: nat)
      requires Valid() && l in watchers
      ensures l in v.lists && l < made && Numbered(v, l, watchers[l].msecs)
    {
    }
  }
}
