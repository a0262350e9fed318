/** The idle timers of timers.js on values: lists of items, one watcher per list, and what the promises of the
    one-watcher-per-timeout scheme are. Timers.dfy runs the same operations on linked lists. */
module IdleTimers {
  import opened LinkList
  import opened Sequences

  type Item = Node

  /** A list: the timeout it was made for, its items, oldest first, and when its watcher goes off. */
  datatype List = List(ms: nat, items: seq<Item>, due: int)

  /** lists: the lists there are, by number in the order of making, of which there were `made`; table: for each timeout the list
      that its items go to, if there is one; on: the list an item is on; start and timeout: the items' _idleStart and
      _idleTimeout; alone: the items linked to themselves, which were enrolled and not started since; clock: Date; loop: the
      event loop's cached time, which watchers are started against. */
  datatype State = State(lists: map<nat, List>, table: map<nat, nat>, made: nat, on: map<Item, nat>,
                         start: map<Item, int>, timeout: map<Item, int>, alone: set<Item>, clock: int, loop: int)

  /** Unless a callback does them, timers.js has these entry points; OnTimeout is the event loop's. */
  datatype Action = Wait(ms: nat) | Active(item: Item) | Enroll(item: Item, msecs: nat) | Unenroll(item: Item)

  // ---------- the operations ----------

  function ItemsOf(s: State, l: nat): seq<Item> {
    if l in s.lists then s.lists[l].items else []
  }

  /** L.remove */
  function Unlinked(s: State, x: Item): State {
    if x in s.on then
      var l := s.on[x];
      s.(lists := if l in s.lists then s.lists[l := s.lists[l].(items := Minus(s.lists[l].items, x))] else s.lists,
         on := s.on - {x}, alone := s.alone - {x})
    else s.(alone := s.alone - {x})
  }

  /** The second half of L.append. */
  function Put(s: State, x: Item, l: nat): State {
    if l in s.lists then s.(lists := s.lists[l := s.lists[l].(items := s.lists[l].items + [x])], on := s.on[x := l]) else s
  }

  /** A list for a timeout is made if there is none, and its watcher started. */
  function Listed(s: State, m: nat): (t: State)
    ensures m in t.table
  {
    if m in s.table then s
    else s.(lists := s.lists[s.made := List(m, [], s.loop + m)], table := s.table[m := s.made], made := s.made + 1)
  }

  function Started(s: State, x: Item): State {
    s.(start := s.start[x := s.clock])
  }

  function DoActive(s: State, x: Item): State
    requires x in s.timeout
  {
    var m := s.timeout[x];
    if m < 0 then s
    else
      var s1 := Listed(s, m);
      Put(Started(Unlinked(s1, x), x), x, s1.table[m])
  }

  /** The list that items of this timeout go to is closed if it is empty. */
  function ClosedIfEmpty(s: State, m: int): State {
    if m in s.table && ItemsOf(s, s.table[m]) == [] then s.(lists := s.lists - {s.table[m]}, table := s.table - {m as nat}) else s
  }

  /** Takes x off its list. */
  function Drop(s: State, x: Item): State
    requires x in s.timeout
  {
    ClosedIfEmpty(Unlinked(s, x), s.timeout[x])
  }

  /** An item gets another timeout, and links to itself or none. */
  function Retimed(s: State, x: Item, timeout: int, alone: set<Item>): State {
    s.(timeout := s.timeout[x := timeout], alone := alone)
  }

  function DoUnenroll(s: State, x: Item): State
    requires x in s.timeout
  {
    var s' := Drop(s, x);
    Retimed(s', x, -1, s'.alone)
  }

  /** An item without links is not unenrolled. */
  function DoEnroll(s: State, x: Item, msecs: nat): State
    requires x in s.timeout
  {
    var s' := if x in s.alone || x in s.on then DoUnenroll(s, x) else s;
    Retimed(s', x, msecs, s'.alone + {x})
  }

  function Act(s: State, a: Action): State {
    match a
    case Wait(ms) => s.(clock := s.clock + ms)
    case Active(x) => if x in s.timeout then DoActive(s, x) else s
    case Enroll(x, msecs) => if x in s.timeout then DoEnroll(s, x, msecs) else s
    case Unenroll(x) => if x in s.timeout then DoUnenroll(s, x) else s
  }

  function Perform(s: State, script: seq<Action>): State
    decreases |script|
  {
    if script == [] then s else Perform(Act(s, script[0]), script[1..])
  }

  // ---------- the invariant ----------

  /** Items on list l, made for m: each once, in the order they were started, none in the future. */
  ghost predicate QueueOk(s: State, l: nat, m: nat, q: seq<Item>) {
    && Unique(q)
    && (forall k :: 0 <= k < |q| ==> q[k] in s.timeout && s.timeout[q[k]] == m && q[k] in s.on && s.on[q[k]] == l && q[k] in s.start)
    && (forall k :: 0 <= k < |q| ==> s.start[q[k]] <= s.clock)
    && (forall j, k :: 0 <= j < k < |q| ==> s.start[q[j]] <= s.start[q[k]])
  }

  ghost predicate ListOk(s: State, l: nat)
    requires l in s.lists
  {
    l < s.made && QueueOk(s, l, s.lists[l].ms, s.lists[l].items)
  }

  /** The watcher of list l goes off no later than its oldest item is due, or than one would be that were started now. */
  ghost predicate WatchOk(s: State, l: nat)
    requires l in s.lists && ListOk(s, l)
  {
    var list := s.lists[l];
    list.due <= (if list.items == [] then s.clock else s.start[list.items[0]]) + list.ms
  }

  /** An item is on the list that it is on; and the table has lists of the right timeouts. */
  ghost predicate Placed(s: State) {
    && (forall x :: x in s.on ==> s.on[x] in s.lists && x in s.lists[s.on[x]].items)
    && (forall m :: m in s.table ==> s.table[m] in s.lists && s.lists[s.table[m]].ms == m)
  }

  /** No list is being drained. (No list has this number.) */
  const NONE := -1

  /** What holds between operations (draining == NONE) and inside the callbacks of list `draining`. */
  ghost predicate Inv(s: State, draining: int) {
    && s.loop <= s.clock && Placed(s)
    && (forall l :: l in s.lists ==> ListOk(s, l))
    && (forall l :: l in s.lists && l != draining ==> WatchOk(s, l))
  }

  /** The lists of the table have items, but for one that is drained. */
  ghost predicate Stocked(s: State, draining: int) {
    forall m :: m in s.table && s.table[m] != draining ==> ItemsOf(s, s.table[m]) != []
  }

  /** Leaving out an item keeps a queue in order, and its oldest item is no older than before. */
  lemma QueueMinus(s: State, l: nat, m: nat, q: seq<Item>, x: Item)
    requires QueueOk(s, l, m, q)
    ensures QueueOk(s, l, m, Minus(q, x))
    ensures Minus(q, x) != [] ==> q != [] && Minus(q, x)[0] in q && s.start[q[0]] <= s.start[Minus(q, x)[0]]
    ensures x !in Minus(q, x)
  {
    MinusFacts(q, x);
    if x in q {
      var k := IndexOf(q, x);
      assert forall j :: 0 <= j < |q| - 1 ==> Without(q, k)[j] == q[if j < k then j else j + 1];
    }
  }

  /** A queue is still in order if nothing happened to its items. */
  lemma QueueStays(s: State, s': State, l: nat, m: nat, q: seq<Item>)
    requires QueueOk(s, l, m, q) && s.clock <= s'.clock
    requires forall k :: 0 <= k < |q| ==> q[k] in s'.start && s'.start[q[k]] == s.start[q[k]]
    requires forall k :: 0 <= k < |q| ==> q[k] in s'.timeout && s'.timeout[q[k]] == m && q[k] in s'.on && s'.on[q[k]] == l
    ensures QueueOk(s', l, m, q)
  {
  }

  /** x is not on list l. */
  lemma NotOn(s: State, x: Item, l: nat)
    requires l in s.lists && ListOk(s, l) && (x in s.on ==> s.on[x] != l)
    ensures x !in s.lists[l].items
  {
  }

  /** Nothing happened to an item but x. */
  predicate OnlyItem(s: State, s': State, x: Item) {
    && s.clock <= s'.clock && s.made <= s'.made
    && (forall y :: y in s.start && y != x ==> y in s'.start && s'.start[y] == s.start[y])
    && (forall y :: y in s.timeout && y != x ==> y in s'.timeout && s'.timeout[y] == s.timeout[y])
    && (forall y :: y in s.on && y != x ==> y in s'.on && s'.on[y] == s.on[y])
  }

  /** A list that x is not on, and that is as it was, is in order and watched as it was. */
  lemma ListStays(s: State, s': State, x: Item, l: nat)
    requires OnlyItem(s, s', x) && l in s.lists && l in s'.lists && s'.lists[l] == s.lists[l] && (x in s.on ==> s.on[x] != l)
    requires ListOk(s, l)
    ensures ListOk(s', l) && (WatchOk(s, l) ==> WatchOk(s', l))
  {
    NotOn(s, x, l);
    QueueStays(s, s', l, s.lists[l].ms, s.lists[l].items);
  }

  lemma UnlinkedList(s: State, x: Item, l: nat, draining: int)
    requires Inv(s, draining) && x in s.on && s.on[x] == l
    ensures var s' := Unlinked(s, x); l in s'.lists && ListOk(s', l) && (l != draining ==> WatchOk(s', l))
  {
    hide Unique, Minus;
    var s', list := Unlinked(s, x), s.lists[l];
    assert ListOk(s, l) && (l != draining ==> WatchOk(s, l));
    QueueMinus(s, l, list.ms, list.items, x);
    QueueStays(s, s', l, list.ms, Minus(list.items, x));
    assert list.items != [] ==> s.start[list.items[0]] <= s.clock;
  }

  lemma UnlinkedInv(s: State, x: Item, draining: int)
    requires Inv(s, draining)
    ensures Inv(Unlinked(s, x), draining) && x !in Unlinked(s, x).on
  {
    hide Minus, Unique, QueueOk, ListOk, WatchOk, Placed;
    var s' := Unlinked(s, x);
    forall l | l in s'.lists ensures ListOk(s', l) && (l != draining ==> WatchOk(s', l)) {
      if x in s.on && s.on[x] == l {
        UnlinkedList(s, x, l, draining);
      } else {
        assert ListOk(s, l) && (l != draining ==> WatchOk(s, l));
        ListStays(s, s', x, l);
      }
    }
    UnlinkedPlaced(s, x);
  }

  /** The lists are the same ones, whatever items are on them. */
  predicate SameLists(s: State, s': State) {
    s'.table == s.table && s'.lists.Keys == s.lists.Keys && forall l :: l in s.lists ==> s'.lists[l].ms == s.lists[l].ms
  }

  lemma UnlinkedSame(s: State, x: Item)
    ensures SameLists(s, Unlinked(s, x))
  {
  }

  /** What L.remove leaves alone. */
  lemma UnlinkedRest(s: State, x: Item)
    ensures Unlinked(s, x) == s.(lists := Unlinked(s, x).lists, alone := s.alone - {x}, on := s.on - {x})
  {
  }

  lemma UnlinkedPlaced(s: State, x: Item)
    requires Placed(s)
    ensures Placed(Unlinked(s, x))
  {
    hide Unlinked;
    var s' := Unlinked(s, x);
    UnlinkedSame(s, x);
    UnlinkedRest(s, x);
    forall y | y in s'.on ensures s'.on[y] in s'.lists && y in s'.lists[s'.on[y]].items {
      OthersStayOn(s, x, y);
    }
  }

  lemma OthersStayOn(s: State, x: Item, y: Item)
    requires y in s.on && s.on[y] in s.lists && y in s.lists[s.on[y]].items && y != x
    ensures s.on[y] in Unlinked(s, x).lists && y in Unlinked(s, x).lists[s.on[y]].items
  {
    hide Minus;
    MinusIs(s.lists[s.on[y]].items, x);
  }

  /** An item that is on no list is started, or gets another timeout. */
  lemma LooseInv(s: State, s': State, x: Item, draining: int)
    requires Inv(s, draining) && x !in s.on && OnlyItem(s, s', x) && s'.loop == s.loop
    requires s'.lists == s.lists && s'.table == s.table && s'.on == s.on
    ensures Inv(s', draining)
  {
    hide QueueOk;
    forall l | l in s'.lists ensures ListOk(s', l) && (l != draining ==> WatchOk(s', l)) {
      assert ListOk(s, l) && (l != draining ==> WatchOk(s, l));
      ListStays(s, s', x, l);
    }
  }

  lemma Numbers(s: State, draining: int)
    requires Inv(s, draining)
    ensures forall l :: l in s.lists ==> l < s.made
  {
    forall l | l in s.lists ensures l < s.made {
      assert ListOk(s, l);
    }
  }

  lemma ListedInv(s: State, m: nat, draining: int)
    requires Inv(s, draining) && draining < s.made
    ensures Inv(Listed(s, m), draining) && draining < Listed(s, m).made
  {
    hide QueueOk, ListOk, WatchOk;
    var s' := Listed(s, m);
    if m !in s.table {
      Numbers(s, draining);
      forall l | l in s.lists ensures ListOk(s', l) && (l != draining ==> WatchOk(s', l)) {
        assert ListOk(s, l) && (l != draining ==> WatchOk(s, l));
        ListSame(s, s', l);
      }
      NewList(s', s.made);
    }
  }

  lemma ListSame(s: State, s': State, l: nat)
    requires l in s.lists && l in s'.lists && s'.lists[l] == s.lists[l] && s.made <= s'.made && ListOk(s, l) && s.clock <= s'.clock
    requires s'.start == s.start && s'.timeout == s.timeout && s'.on == s.on
    ensures ListOk(s', l) && (WatchOk(s, l) ==> WatchOk(s', l))
  {
    QueueStays(s, s', l, s.lists[l].ms, s.lists[l].items);
  }

  lemma NewList(s: State, l: nat)
    requires l in s.lists && l < s.made && s.lists[l].items == [] && s.lists[l].due <= s.clock + s.lists[l].ms
    ensures ListOk(s, l) && WatchOk(s, l)
  {
  }

  /** An item started now goes to the end. */
  lemma QueueAppend(s: State, l: nat, m: nat, q: seq<Item>, x: Item)
    requires QueueOk(s, l, m, q) && x !in q
    requires x in s.timeout && s.timeout[x] == m && x in s.on && s.on[x] == l && x in s.start && s.start[x] == s.clock
    ensures QueueOk(s, l, m, q + [x])
  {
  }

  lemma PutList(s: State, x: Item, l: nat, draining: int)
    requires Inv(s, draining) && x !in s.on && l in s.lists && x in s.timeout && s.timeout[x] == s.lists[l].ms
    requires x in s.start && s.start[x] == s.clock
    ensures var s' := Put(s, x, l); l in s'.lists && ListOk(s', l) && (l != draining ==> WatchOk(s', l))
  {
    var s', list := Put(s, x, l), s.lists[l];
    assert ListOk(s, l) && (l != draining ==> WatchOk(s, l));
    NotOn(s, x, l);
    QueueStays(s, s', l, list.ms, list.items);
    QueueAppend(s', l, list.ms, list.items, x);
  }

  lemma PutInv(s: State, x: Item, l: nat, draining: int)
    requires Inv(s, draining) && x !in s.on && l in s.lists && x in s.timeout && s.timeout[x] == s.lists[l].ms
    requires x in s.start && s.start[x] == s.clock
    ensures Inv(Put(s, x, l), draining)
  {
    var s' := Put(s, x, l);
    hide QueueOk;
    forall k | k in s'.lists ensures ListOk(s', k) && (k != draining ==> WatchOk(s', k)) {
      if k == l {
        PutList(s, x, l, draining);
      } else {
        assert ListOk(s, k) && (k != draining ==> WatchOk(s, k));
        ListStays(s, s', x, k);
      }
    }
  }

  lemma TableHas(s: State, m: nat, draining: int)
    requires Inv(s, draining) && m in s.table
    ensures s.table[m] in s.lists && s.lists[s.table[m]].ms == m
  {
  }

  lemma ListedRest(s: State, m: nat)
    ensures var t := Listed(s, m); t == s.(lists := t.lists, table := t.table, made := t.made)
    ensures m in s.table ==> Listed(s, m) == s
    ensures m !in s.table ==> Listed(s, m).made == s.made + 1 && Listed(s, m).table == s.table[m := s.made]
  {
  }

  lemma ActiveInv(s: State, x: Item, draining: int)
    requires Inv(s, draining) && draining < s.made && x in s.timeout
    ensures Inv(DoActive(s, x), draining)
  {
    hide Inv, Unlinked, Listed;
    var m := s.timeout[x];
    if m >= 0 {
      var s1 := Listed(s, m);
      ListedInv(s, m, draining);
      ListedRest(s, m);
      TableHas(s1, m, draining);
      UnlinkedInv(s1, x, draining);
      UnlinkedRest(s1, x);
      UnlinkedSame(s1, x);
      var s2 := Unlinked(s1, x);
      LooseInv(s2, Started(s2, x), x, draining);
      PutInv(Started(s2, x), x, s1.table[m], draining);
    }
  }

  /** An empty list goes, and may leave the table. */
  lemma GoneInv(s: State, s': State, l: nat, draining: int)
    requires Inv(s, draining) && ItemsOf(s, l) == [] && s' == s.(lists := s.lists - {l}, table := s'.table)
    requires forall m :: m in s'.table ==> m in s.table && s'.table[m] == s.table[m] != l
    ensures Inv(s', draining) && (draining == l ==> Inv(s', NONE))
  {
    hide QueueOk;
    forall k | k in s'.lists ensures ListOk(s', k) && (k != draining ==> WatchOk(s', k)) {
      assert ListOk(s, k) && (k != draining ==> WatchOk(s, k));
      ListSame(s, s', k);
    }
  }

  lemma DropInv(s: State, x: Item, draining: int)
    requires Inv(s, draining) && x in s.timeout
    ensures Inv(Drop(s, x), draining) && x !in Drop(s, x).on
  {
    hide QueueOk, ListOk, WatchOk, Minus;
    var m, s1 := s.timeout[x], Unlinked(s, x);
    UnlinkedInv(s, x, draining);
    if m in s1.table && ItemsOf(s1, s1.table[m]) == [] {
      TableApart(s1, m as nat, draining);
      GoneInv(s1, ClosedIfEmpty(s1, m), s1.table[m], draining);
    }
  }

  /** Different timeouts have different lists. */
  lemma TableApart(s: State, m: nat, draining: int)
    requires Inv(s, draining) && m in s.table
    ensures forall n :: n in s.table && n != m ==> s.table[n] != s.table[m]
  {
  }

  lemma UnenrollInv(s: State, x: Item, draining: int)
    requires Inv(s, draining) && x in s.timeout
    ensures Inv(DoUnenroll(s, x), draining) && x !in DoUnenroll(s, x).on && x in DoUnenroll(s, x).timeout
  {
    hide Inv, Drop;
    DropInv(s, x, draining);
    DropKeeps(s, x);
    LooseInv(Drop(s, x), DoUnenroll(s, x), x, draining);
  }

  lemma DropKeeps(s: State, x: Item)
    requires x in s.timeout
    ensures var t := Drop(s, x);
      t.timeout == s.timeout && t.start == s.start && t.clock == s.clock && t.loop == s.loop && t.made == s.made && t.on == s.on - {x}
  {
    hide Unlinked;
    UnlinkedRest(s, x);
  }

  lemma EnrollInv(s: State, x: Item, msecs: nat, draining: int)
    requires Inv(s, draining) && x in s.timeout
    ensures Inv(DoEnroll(s, x, msecs), draining)
  {
    hide Inv, DoUnenroll;
    var s' := if x in s.alone || x in s.on then DoUnenroll(s, x) else s;
    UnenrollInv(s, x, draining);
    LooseInv(s', DoEnroll(s, x, msecs), x, draining);
  }

  lemma WaitInv(s: State, ms: nat, draining: int)
    requires Inv(s, draining)
    ensures Inv(s.(clock := s.clock + ms), draining)
  {
    hide QueueOk;
    var s' := s.(clock := s.clock + ms);
    forall l | l in s'.lists ensures ListOk(s', l) && (l != draining ==> WatchOk(s', l)) {
      assert ListOk(s, l) && (l != draining ==> WatchOk(s, l));
      ListSame(s, s', l);
    }
  }

  lemma ActInv(s: State, a: Action, draining: int)
    requires Inv(s, draining) && draining < s.made
    ensures Inv(Act(s, a), draining)
  {
    hide Inv, DoActive, DoEnroll, DoUnenroll;
    match a
    case Wait(ms) => WaitInv(s, ms, draining);
    case Active(x) => if x in s.timeout { ActiveInv(s, x, draining); }
    case Enroll(x, msecs) => if x in s.timeout { EnrollInv(s, x, msecs, draining); }
    case Unenroll(x) => if x in s.timeout { UnenrollInv(s, x, draining); }
  }

  // ---------- what the operations do ----------

  /** L.remove takes an item off the one list it may be on. */
  lemma UnlinkedOff(s: State, x: Item, k: nat, draining: int)
    requires Inv(s, draining)
    ensures ItemsOf(Unlinked(s, x), k) == Minus(ItemsOf(s, k), x)
  {
    if x in s.on && s.on[x] == k && k in s.lists {
      UnlinkedItems(s, x, k);
    } else {
      NotOnItems(s, x, k, draining);
      MinusIs(ItemsOf(s, k), x);
    }
  }

  /** An item with a timeout is started now, and goes to the end of the list for its timeout from wherever it was. */
  lemma ActiveIs(s: State, x: Item, k: nat, draining: int)
    requires Inv(s, draining) && draining < s.made && x in s.timeout
    ensures var t, m := Act(s, Active(x)), s.timeout[x];
      if m < 0 then t == s
      else
        && t.start == s.start[x := s.clock] && t.timeout == s.timeout && t.clock == s.clock && t.loop == s.loop
        && m in t.table && t.table == (if m in s.table then s.table else s.table[m as nat := s.made])
        && var l := t.table[m as nat];
           && l in t.lists && t.lists[l].ms == m && (m !in s.table ==> t.lists[l].due == s.loop + m)
           && ItemsOf(t, l) == (if m in s.table then Minus(ItemsOf(s, l), x) else []) + [x]
           && (k != l ==> ItemsOf(t, k) == Minus(ItemsOf(s, k), x))
  {
    hide Inv, Unlinked, Minus;
    var m := s.timeout[x];
    if m >= 0 {
      var s1 := Listed(s, m);
      ListedInv(s, m, draining);
      Numbers(s, draining);
      TableHas(s1, m, draining);
      UnlinkedRest(s1, x);
      UnlinkedSame(s1, x);
      UnlinkedDues(s1, x);
      UnlinkedOff(s1, x, s1.table[m], draining);
      UnlinkedOff(s1, x, k, draining);
      NothingMinus(x);
      assert ItemsOf(s1, s1.table[m]) == if m in s.table then ItemsOf(s, s1.table[m]) else [];
    }
  }

  lemma UnlinkedDues(s: State, x: Item)
    ensures forall l :: l in s.lists && l in Unlinked(s, x).lists ==> Unlinked(s, x).lists[l].due == s.lists[l].due
  {
  }

  /** An item is off its list for good; and if that leaves the list for its timeout empty, there is none for it any more. */
  lemma UnenrollIs(s: State, x: Item, k: nat, draining: int)
    requires Inv(s, draining) && x in s.timeout
    ensures var t, m := Act(s, Unenroll(x)), s.timeout[x];
      && t.timeout == s.timeout[x := -1] && t.start == s.start && t.clock == s.clock && t.loop == s.loop
      && x !in t.on && x !in t.alone && ItemsOf(t, k) == Minus(ItemsOf(s, k), x)
      && (k in t.lists <==> k in s.lists && !(m in s.table && s.table[m as nat] == k && Minus(ItemsOf(s, k), x) == []))
      && t.table == if m in s.table && Minus(ItemsOf(s, s.table[m as nat]), x) == [] then s.table - {m as nat} else s.table
  {
    hide Inv, Unlinked, Minus;
    var m := s.timeout[x];
    UnlinkedRest(s, x);
    UnlinkedSame(s, x);
    UnlinkedOff(s, x, k, draining);
    if m in s.table {
      UnlinkedOff(s, x, s.table[m as nat], draining);
    }
  }

  /** An item gets a timeout, and is on no list: it has to be started. */
  lemma EnrollIs(s: State, x: Item, msecs: nat, k: nat, draining: int)
    requires Inv(s, draining) && x in s.timeout
    ensures var t := Act(s, Enroll(x, msecs));
      && t.timeout == s.timeout[x := msecs] && t.start == s.start && t.clock == s.clock && t.loop == s.loop
      && x !in t.on && x in t.alone && ItemsOf(t, k) == Minus(ItemsOf(s, k), x)
  {
    hide Inv, DoUnenroll, Minus;
    if x in s.alone || x in s.on {
      UnenrollIs(s, x, k, draining);
      assert s.timeout[x := -1][x := msecs] == s.timeout[x := msecs];
    } else {
      NotOnItems(s, x, k, draining);
      MinusIs(ItemsOf(s, k), x);
    }
  }

  // ---------- draining a list ----------

  /** ontimeout's test, negated there: an item started then is to be fired now. */
  predicate IsDue(now: int, start: int, m: int) {
    now - start + 1 >= m
  }

  /** The due items of a queue. */
  function DueIn(start: map<Item, int>, now: int, m: int, q: seq<Item>): seq<Item> {
    if q == [] then []
    else if q[0] in start && IsDue(now, start[q[0]], m) then [q[0]] + DueIn(start, now, m, q[1..])
    else DueIn(start, now, m, q[1..])
  }

  /** What remains of the items waiting to be fired when a callback has re-armed some of them, or taken them off. */
  function Spared(waiting: seq<Item>, script: seq<Action>): (r: seq<Item>)
    ensures |r| <= |waiting|
    decreases |script|
  {
    if script == [] then waiting
    else Spared(if script[0].Wait? then waiting else Minus(waiting, script[0].item), script[1..])
  }

  lemma {:induction false} DueAreIn(start: map<Item, int>, now: int, m: int, q: seq<Item>)
    ensures forall x :: x in DueIn(start, now, m, q) ==> x in q && x in start && IsDue(now, start[x], m)
  {
    if q != [] {
      DueAreIn(start, now, m, q[1..]);
    }
  }

  lemma MinusCons<T>(h: T, t: seq<T>, x: T)
    ensures Minus([h] + t, x) == if h == x then t else [h] + Minus(t, x)
  {
    var q := [h] + t;
    assert q[1..] == t;
    if h == x {
      assert Without(q, 0) == t;
    } else if x in t {
      var k := IndexOf(t, x);
      assert x in q && IndexOf(q, x) == k + 1;
      assert Without(q, k + 1) == [h] + Without(t, k);
    } else {
      assert x !in q;
    }
  }

  lemma {:induction false} DueMinus(start: map<Item, int>, now: int, m: int, q: seq<Item>, x: Item)
    requires Unique(q)
    ensures DueIn(start, now, m, Minus(q, x)) == Minus(DueIn(start, now, m, q), x)
  {
    hide Minus, IndexOf, Without;
    if q == [] {
      NothingMinus(x);
    } else {
      var h, t := q[0], q[1..];
      var due := DueIn(start, now, m, t);
      assert q == [h] + t;
      MinusCons(h, t, x);
      MinusCons(h, due, x);
      if h == x {
        DueAreIn(start, now, m, t);
        MinusIs(due, x);
      } else {
        DueMinus(start, now, m, t, x);
        assert ([h] + Minus(t, x))[1..] == Minus(t, x);
      }
    }
  }

  lemma NothingMinus<T>(x: T)
    ensures Minus([], x) == []
  {
  }

  lemma {:induction false} DueStays(start: map<Item, int>, start': map<Item, int>, now: int, m: int, q: seq<Item>)
    requires forall k :: 0 <= k < |q| ==> q[k] in start && q[k] in start' && start[q[k]] == start'[q[k]]
    ensures DueIn(start, now, m, q) == DueIn(start', now, m, q)
  {
    if q != [] {
      DueStays(start, start', now, m, q[1..]);
    }
  }

  lemma {:induction false} DueAppend(start: map<Item, int>, now: int, m: int, q: seq<Item>, x: Item)
    requires x in start && !IsDue(now, start[x], m)
    ensures DueIn(start, now, m, q + [x]) == DueIn(start, now, m, q)
  {
    if q == [] {
      assert [x][1..] == [];
    } else {
      DueAppend(start, now, m, q[1..], x);
      assert (q + [x])[1..] == q[1..] + [x];
    }
  }

  /** An item re-armed during a drain is due again in the same drain only for timeouts below 2:
      the clock has not gone back, and one millisecond is granted. */
  lemma RearmedIsNotDue(now: int, start: int, m: int)
    requires now <= start && m >= 2
    ensures !IsDue(now, start, m)
  {
  }

  lemma NothingDue(start: map<Item, int>, now: int, m: int)
    ensures DueIn(start, now, m, []) == []
  {
  }

  lemma SparedOne(waiting: seq<Item>, a: Action)
    ensures Spared(waiting, [a]) == if a.Wait? then waiting else Minus(waiting, a.item)
  {
    assert [a][1..] == [];
  }

  /** The items of list l, made for m, that are to be fired. */
  function Waiting(s: State, l: nat, m: nat, now: int): seq<Item> {
    DueIn(s.start, now, m, ItemsOf(s, l))
  }

  lemma NotWaiting(s: State, x: Item, l: nat, m: nat, now: int)
    requires x !in ItemsOf(s, l)
    ensures Minus(Waiting(s, l, m, now), x) == Waiting(s, l, m, now)
  {
    DueAreIn(s.start, now, m, ItemsOf(s, l));
    MinusIs(Waiting(s, l, m, now), x);
  }

  /** Taking an item off whatever list it is on takes it off those waiting. */
  lemma UnlinkedDue(s: State, x: Item, l: nat, m: nat, now: int, draining: int)
    requires Inv(s, draining)
    ensures Waiting(Unlinked(s, x), l, m, now) == Minus(Waiting(s, l, m, now), x) && x !in ItemsOf(Unlinked(s, x), l)
  {
    UnlinkedInv(s, x, draining);
    if l in s.lists {
      assert ListOk(s, l) && ListOk(Unlinked(s, x), l);
      NotOn(Unlinked(s, x), x, l);
    }
    hide DueIn, Inv, Minus;
    if x in s.on && s.on[x] == l && l in s.lists {
      DueMinus(s.start, now, m, s.lists[l].items, x);
    } else {
      NotOnItems(s, x, l, draining);
      NotWaiting(s, x, l, m, now);
    }
  }

  lemma NotOnItems(s: State, x: Item, l: nat, draining: int)
    requires Inv(s, draining) && (x in s.on ==> s.on[x] != l || l !in s.lists)
    ensures x !in ItemsOf(s, l)
  {
    if l in s.lists {
      assert ListOk(s, l);
      NotOn(s, x, l);
    }
  }

  lemma StartedDue(s: State, x: Item, l: nat, m: nat, now: int, draining: int)
    requires Inv(s, draining) && x !in ItemsOf(s, l)
    ensures Waiting(Started(s, x), l, m, now) == Waiting(s, l, m, now)
  {
    if l in s.lists {
      assert ListOk(s, l);
    }
    DueStays(s.start, Started(s, x).start, now, m, ItemsOf(s, l));
  }

  /** An item started now is not due, on whatever list. */
  lemma PutDue(s: State, x: Item, k: nat, l: nat, m: nat, now: int)
    requires x in s.start && !IsDue(now, s.start[x], m)
    ensures Waiting(Put(s, x, k), l, m, now) == Waiting(s, l, m, now)
  {
    if k == l {
      DueAppend(s.start, now, m, ItemsOf(s, l), x);
    }
  }

  lemma ActiveDue(s: State, x: Item, l: nat, m: nat, now: int, draining: int)
    requires Inv(s, draining) && draining < s.made && l < s.made && m >= 2 && now <= s.clock && x in s.timeout
    requires x in ItemsOf(s, l) ==> s.timeout[x] >= 0
    ensures Waiting(DoActive(s, x), l, m, now) == Minus(Waiting(s, l, m, now), x)
  {
    hide Inv, Waiting, Minus, DueIn, ItemsOf, Unlinked, Put;
    var n := s.timeout[x];
    if n < 0 {
      NotWaiting(s, x, l, m, now);
    } else {
      var s1 := Listed(s, n);
      ListedInv(s, n, draining);
      ListedDue(s, n, l, m, now);
      UnlinkedInv(s1, x, draining);
      UnlinkedDue(s1, x, l, m, now, draining);
      var s2 := Unlinked(s1, x);
      StartedDue(s2, x, l, m, now, draining);
      UnlinkedRest(s1, x);
      RearmedIsNotDue(now, s2.clock, m);
      PutDue(Started(s2, x), x, s1.table[n], l, m, now);
    }
  }

  lemma ListedDue(s: State, n: nat, l: nat, m: nat, now: int)
    requires l < s.made
    ensures Waiting(Listed(s, n), l, m, now) == Waiting(s, l, m, now)
  {
  }

  /** A list that is empty when it is closed stays empty. */
  lemma ClosedDue(s: State, n: int, l: nat, m: nat, now: int)
    ensures Waiting(ClosedIfEmpty(s, n), l, m, now) == Waiting(s, l, m, now)
  {
  }

  lemma UnenrollDue(s: State, x: Item, l: nat, m: nat, now: int, draining: int)
    requires Inv(s, draining) && x in s.timeout
    ensures Waiting(DoUnenroll(s, x), l, m, now) == Minus(Waiting(s, l, m, now), x)
  {
    hide Inv, DueIn, ItemsOf, Unlinked, ClosedIfEmpty, Minus;
    UnlinkedDue(s, x, l, m, now, draining);
    ClosedDue(Unlinked(s, x), s.timeout[x], l, m, now);
    RetimedDue(Drop(s, x), x, -1, Drop(s, x).alone, l, m, now);
  }

  lemma RetimedDue(s: State, x: Item, t: int, alone: set<Item>, l: nat, m: nat, now: int)
    ensures Waiting(Retimed(s, x, t, alone), l, m, now) == Waiting(s, l, m, now)
  {
  }

  lemma EnrollDue(s: State, x: Item, msecs: nat, l: nat, m: nat, now: int, draining: int)
    requires Inv(s, draining) && x in s.timeout
    ensures Waiting(DoEnroll(s, x, msecs), l, m, now) == Minus(Waiting(s, l, m, now), x)
  {
    hide Inv, Waiting, DoUnenroll, Minus;
    var s' := if x in s.alone || x in s.on then DoUnenroll(s, x) else s;
    if x in s.alone || x in s.on {
      UnenrollDue(s, x, l, m, now, draining);
    } else {
      NotOnItems(s, x, l, draining);
      NotWaiting(s, x, l, m, now);
    }
    RetimedDue(s', x, msecs, s'.alone + {x}, l, m, now);
  }

  /** An item on a list has a timeout. */
  lemma ItemsTimed(s: State, l: nat, draining: int)
    requires Inv(s, draining)
    ensures forall x :: x in ItemsOf(s, l) ==> x in s.timeout && s.timeout[x] >= 0 && x in s.start
  {
    if l in s.lists {
      assert ListOk(s, l);
    }
  }

  lemma WaitDue(s: State, ms: nat, l: nat, m: nat, now: int)
    ensures Waiting(s.(clock := s.clock + ms), l, m, now) == Waiting(s, l, m, now)
  {
  }

  /** What one action of a callback does to the items of the drained list that are waiting to be fired. */
  lemma ActDue(s: State, a: Action, l: nat, m: nat, now: int, draining: int)
    requires Inv(s, draining) && draining < s.made && l < s.made && m >= 2 && now <= s.clock
    ensures Waiting(Act(s, a), l, m, now) == Spared(Waiting(s, l, m, now), [a])
  {
    hide Inv, Waiting, DueIn, Spared, DoActive, DoEnroll, DoUnenroll, Minus, ItemsOf;
    SparedOne(Waiting(s, l, m, now), a);
    ItemsTimed(s, l, draining);
    match a
    case Wait(ms) => WaitDue(s, ms, l, m, now);
    case Active(x) =>
      if x in s.timeout {
        ActiveDue(s, x, l, m, now, draining);
      } else {
        NotWaiting(s, x, l, m, now);
      }
    case Enroll(x, msecs) =>
      if x in s.timeout {
        EnrollDue(s, x, msecs, l, m, now, draining);
      } else {
        NotWaiting(s, x, l, m, now);
      }
    case Unenroll(x) =>
      if x in s.timeout {
        UnenrollDue(s, x, l, m, now, draining);
      } else {
        NotWaiting(s, x, l, m, now);
      }
  }

  /** Lists keep their timeouts, numbers are not used again, the clock does not go back, and the loop's time stays. */
  predicate GoesOn(s: State, s': State) {
    && s.made <= s'.made && s.clock <= s'.clock && s'.loop == s.loop
    && forall l :: l in s'.lists && l < s.made ==> l in s.lists && s'.lists[l].ms == s.lists[l].ms
  }

  lemma UnlinkedGoesOn(s: State, x: Item)
    ensures GoesOn(s, Unlinked(s, x))
  {
  }

  lemma ActiveGoesOn(s: State, x: Item)
    requires x in s.timeout
    ensures GoesOn(s, DoActive(s, x))
  {
    hide Unlinked;
    if s.timeout[x] >= 0 {
      UnlinkedGoesOn(Listed(s, s.timeout[x]), x);
    }
  }

  lemma UnenrollGoesOn(s: State, x: Item)
    requires x in s.timeout
    ensures GoesOn(s, DoUnenroll(s, x))
  {
    hide Unlinked;
    UnlinkedGoesOn(s, x);
  }

  lemma ActGoesOn(s: State, a: Action)
    ensures GoesOn(s, Act(s, a))
  {
    hide DoActive, DoUnenroll;
    match a
    case Wait(ms) =>
    case Active(x) => if x in s.timeout { ActiveGoesOn(s, x); }
    case Enroll(x, msecs) => if x in s.timeout { UnenrollGoesOn(s, x); }
    case Unenroll(x) => if x in s.timeout { UnenrollGoesOn(s, x); }
  }

  lemma {:induction false} PerformInv(s: State, script: seq<Action>, draining: int)
    requires Inv(s, draining) && draining < s.made
    ensures var s' := Perform(s, script); Inv(s', draining) && GoesOn(s, s')
    decreases |script|
  {
    hide Inv, Act;
    if script != [] {
      ActInv(s, script[0], draining);
      ActGoesOn(s, script[0]);
      PerformInv(Act(s, script[0]), script[1..], draining);
    }
  }

  lemma {:induction false} PerformDue(s: State, script: seq<Action>, l: nat, m: nat, now: int, draining: int)
    requires Inv(s, draining) && draining < s.made && l < s.made && m >= 2 && now <= s.clock
    ensures Waiting(Perform(s, script), l, m, now) == Spared(Waiting(s, l, m, now), script)
    decreases |script|
  {
    hide Inv, Act, Waiting;
    if script != [] {
      var a := script[0];
      ActInv(s, a, draining);
      ActDue(s, a, l, m, now, draining);
      ActGoesOn(s, a);
      PerformDue(Act(s, a), script[1..], l, m, now, draining);
      SparedFirst(Waiting(s, l, m, now), script);
    }
  }

  lemma SparedFirst(waiting: seq<Item>, script: seq<Action>)
    requires script != []
    ensures Spared(waiting, script) == Spared(Spared(waiting, [script[0]]), script[1..])
  {
    SparedOne(waiting, script[0]);
  }

  /** The first of a list of scripts, and the rest; a callback without a script does nothing. */
  function First(scripts: seq<seq<Action>>): seq<Action> {
    if scripts == [] then [] else scripts[0]
  }

  function Rest(scripts: seq<seq<Action>>): seq<seq<Action>> {
    if scripts == [] then [] else scripts[1..]
  }

  /** The oldest item leaves the list before its callback runs. */
  function Shifted(s: State, l: nat): State
    requires ItemsOf(s, l) != []
  {
    Unlinked(s, ItemsOf(s, l)[0])
  }

  lemma ShiftedIs(s: State, l: nat, draining: int)
    requires Inv(s, draining) && ItemsOf(s, l) != []
    ensures ItemsOf(s, l)[0] in s.start && ItemsOf(Shifted(s, l), l) == ItemsOf(s, l)[1..]
    ensures Shifted(s, l).start == s.start && GoesOn(s, Shifted(s, l)) && Shifted(s, l).clock == s.clock
  {
    hide Inv, Unlinked, ItemsOf, Minus;
    var q := ItemsOf(s, l);
    FirstIsOn(s, l, draining);
    MinusFirst(q);
    UnlinkedItems(s, q[0], l);
    UnlinkedGoesOn(s, q[0]);
    UnlinkedRest(s, q[0]);
  }

  lemma FirstIsOn(s: State, l: nat, draining: int)
    requires Inv(s, draining) && ItemsOf(s, l) != []
    ensures var x := ItemsOf(s, l)[0]; x in s.start && x in s.on && s.on[x] == l && l in s.lists
  {
    assert ListOk(s, l);
  }

  lemma UnlinkedItems(s: State, x: Item, l: nat)
    requires x in s.on && s.on[x] == l && l in s.lists
    ensures ItemsOf(Unlinked(s, x), l) == Minus(ItemsOf(s, l), x)
  {
    hide Minus;
  }

  /** When the oldest item is not due, none is. */
  lemma {:induction false} NoneDue(s: State, l: nat, k: nat, m: nat, now: int, q: seq<Item>)
    requires QueueOk(s, l, k, q) && (q != [] ==> !IsDue(now, s.start[q[0]], m))
    ensures DueIn(s.start, now, m, q) == []
  {
    if q != [] {
      assert QueueOk(s, l, k, q[1..]);
      NoneDue(s, l, k, m, now, q[1..]);
    }
  }

  /** l is the number of a list made for m, which may have been closed. */
  predicate Numbered(s: State, l: nat, m: nat) {
    l < s.made && (l in s.lists ==> s.lists[l].ms == m)
  }

  /** The end of ontimeout: the list is closed, and whatever list the table has for the timeout is taken out of it. */
  function Over(s: State, l: nat, m: nat): State {
    s.(lists := s.lists - {l}, table := s.table - {m})
  }

  /** The watcher is started again, for the oldest item. */
  function Restarted(s: State, l: nat, m: nat, now: int): State
    requires l in s.lists && ItemsOf(s, l) != [] && ItemsOf(s, l)[0] in s.start
  {
    s.(lists := s.lists[l := s.lists[l].(due := s.loop + (m - (now - s.start[ItemsOf(s, l)[0]])))])
  }

  /** One run of ontimeout for list l, begun at time now: callback k performs scripts[k], and callbacks beyond these do
      nothing; silent items have no callback. Gives the state it leaves and the items whose callbacks it ran, in order. */
  function Drain(s: State, l: nat, m: nat, now: int, scripts: seq<seq<Action>>, silent: set<Item>): (State, seq<Item>)
    requires Inv(s, l) && Numbered(s, l, m)
    decreases |scripts|, |ItemsOf(s, l)|
  {
    if ItemsOf(s, l) == [] then (Over(s, l, m), [])
    else
      var x := ItemsOf(s, l)[0];
      ShiftedIs(s, l, l);
      if !IsDue(now, s.start[x], m) then (Restarted(s, l, m, now), [])
      else
        UnlinkedInv(s, x, l);
        if x in silent then Drain(Shifted(s, l), l, m, now, scripts, silent)
        else
          PerformInv(Shifted(s, l), First(scripts), l);
          PerformNothing(Shifted(s, l));
          var (s', fired) := Drain(Perform(Shifted(s, l), First(scripts)), l, m, now, Rest(scripts), silent);
          (s', [x] + fired)
  }

  lemma PerformNothing(s: State)
    ensures Perform(s, []) == s
  {
  }

  /** Fewer callbacks have something left to do, or as many do and fewer items are on the list. */
  predicate Decreases(s: State, todo: seq<seq<Action>>, s': State, todo': seq<seq<Action>>, l: nat) {
    |todo'| < |todo| || (|todo'| == |todo| && |ItemsOf(s', l)| < |ItemsOf(s, l)|)
  }

  /** An item's callback has run, if it has one, and the item has left the list before. */
  function Fired(s: State, l: nat, script: seq<Action>, silent: set<Item>): State
    requires ItemsOf(s, l) != []
  {
    if ItemsOf(s, l)[0] in silent then Shifted(s, l) else Perform(Shifted(s, l), script)
  }

  /** One round of a drain, with what it has fired so far. */
  lemma DrainRound(s: State, l: nat, m: nat, now: int, scripts: seq<seq<Action>>, silent: set<Item>, sofar: seq<Item>)
    requires Inv(s, l) && Numbered(s, l, m) && ItemsOf(s, l) != []
    requires ItemsOf(s, l)[0] in s.start && IsDue(now, s.start[ItemsOf(s, l)[0]], m)
    ensures var x, s', d := ItemsOf(s, l)[0], Fired(s, l, First(scripts), silent), Drain(s, l, m, now, scripts, silent);
      var scripts', sofar' := if x in silent then scripts else Rest(scripts), if x in silent then sofar else sofar + [x];
      && Inv(s', l) && Numbered(s', l, m) && GoesOn(s, s') && Decreases(s, scripts, s', scripts', l)
      && var d' := Drain(s', l, m, now, scripts', silent);
      d.0 == d'.0 && sofar + d.1 == sofar' + d'.1
  {
    hide Inv, Perform, Unlinked;
    var x := ItemsOf(s, l)[0];
    ShiftedIs(s, l, l);
    UnlinkedInv(s, x, l);
    if x !in silent {
      PerformInv(Shifted(s, l), First(scripts), l);
      PerformNothing(Shifted(s, l));
      var d' := Drain(Perform(Shifted(s, l), First(scripts)), l, m, now, Rest(scripts), silent);
      assert sofar + ([x] + d'.1) == (sofar + [x]) + d'.1;
    }
  }

  /** Nothing on list l is due, or a callback has closed it. */
  predicate Stops(s: State, l: nat, m: nat, now: int) {
    ItemsOf(s, l) == [] || (ItemsOf(s, l)[0] in s.start && !IsDue(now, s.start[ItemsOf(s, l)[0]], m))
  }

  /** How a drain ends: with the list closed, or its watcher restarted. */
  function Stopped(s: State, l: nat, m: nat, now: int): State
    requires Stops(s, l, m, now)
  {
    if ItemsOf(s, l) == [] then Over(s, l, m) else Restarted(s, l, m, now)
  }

  lemma DrainEnds(s: State, l: nat, m: nat, now: int, scripts: seq<seq<Action>>, silent: set<Item>, sofar: seq<Item>)
    requires Inv(s, l) && Numbered(s, l, m) && Stops(s, l, m, now)
    ensures var d := Drain(s, l, m, now, scripts, silent);
      d.0 == Stopped(s, l, m, now) && sofar + d.1 == sofar
  {
  }

  /** Which of the waiting items are fired: each in its turn, unless an earlier callback re-armed it or took it off. */
  function Fires(waiting: seq<Item>, scripts: seq<seq<Action>>, silent: set<Item>): seq<Item>
    decreases |waiting|
  {
    if waiting == [] then []
    else if waiting[0] in silent then Fires(waiting[1..], scripts, silent)
    else [waiting[0]] + Fires(Spared(waiting[1..], First(scripts)), Rest(scripts), silent)
  }

  /** A run fires exactly the items due when it began, oldest first, but for those re-armed or taken off before their turn. */
  lemma {:induction false} DrainFires(s: State, l: nat, m: nat, now: int, scripts: seq<seq<Action>>, silent: set<Item>)
    requires Inv(s, l) && Numbered(s, l, m) && m >= 2 && now <= s.clock
    ensures Drain(s, l, m, now, scripts, silent).1 == Fires(Waiting(s, l, m, now), scripts, silent)
    decreases |scripts|, |ItemsOf(s, l)|
  {
    hide Inv, DueIn, Perform, Unlinked, Spared, ItemsOf;
    ItemsTimed(s, l, l);
    if Stops(s, l, m, now) {
      NoneWaiting(s, l, m, now, l);
      DrainEnds(s, l, m, now, scripts, silent, []);
      assert [] + Drain(s, l, m, now, scripts, silent).1 == Drain(s, l, m, now, scripts, silent).1;
    } else {
      var x, s1, s' := ItemsOf(s, l)[0], Shifted(s, l), Fired(s, l, First(scripts), silent);
      ShiftedIs(s, l, l);
      UnlinkedInv(s, x, l);
      FirstWaits(s, l, m, now);
      DrainRound(s, l, m, now, scripts, silent, []);
      var waiting := Waiting(s1, l, m, now);
      assert ([x] + waiting)[1..] == waiting;
      if x in silent {
        DrainFires(s', l, m, now, scripts, silent);
      } else {
        PerformInv(s1, First(scripts), l);
        PerformDue(s1, First(scripts), l, m, now, l);
        DrainFires(s', l, m, now, Rest(scripts), silent);
      }
      var d := Drain(s, l, m, now, scripts, silent);
      var d' := Drain(s', l, m, now, if x in silent then scripts else Rest(scripts), silent);
      assert [] + d.1 == d.1 && [] + d'.1 == d'.1 && [] + [x] == [x];
    }
  }

  lemma FirstWaits(s: State, l: nat, m: nat, now: int)
    requires Inv(s, l) && ItemsOf(s, l) != [] && ItemsOf(s, l)[0] in s.start && IsDue(now, s.start[ItemsOf(s, l)[0]], m)
    ensures Waiting(s, l, m, now) == [ItemsOf(s, l)[0]] + Waiting(Shifted(s, l), l, m, now)
  {
    ShiftedIs(s, l, l);
  }

  lemma NoneWaiting(s: State, l: nat, m: nat, now: int, draining: int)
    requires Inv(s, draining) && Stops(s, l, m, now)
    ensures Waiting(s, l, m, now) == []
  {
    if l in s.lists {
      assert ListOk(s, l);
      NoneDue(s, l, s.lists[l].ms, m, now, ItemsOf(s, l));
    }
  }

  /** A run leaves every list watched again, and nothing on its own list that is due at the time it began. */
  lemma {:induction false} DrainInv(s: State, l: nat, m: nat, now: int, scripts: seq<seq<Action>>, silent: set<Item>)
    requires Inv(s, l) && Numbered(s, l, m) && s.loop <= now
    ensures var s' := Drain(s, l, m, now, scripts, silent).0; Inv(s', NONE) && Waiting(s', l, m, now) == []
    decreases |scripts|, |ItemsOf(s, l)|
  {
    hide Inv, DueIn, Perform, Unlinked, Waiting, ItemsOf;
    ItemsTimed(s, l, l);
    if Stops(s, l, m, now) {
      StoppedInv(s, l, m, now);
      DrainEnds(s, l, m, now, scripts, silent, []);
    } else {
      DrainRound(s, l, m, now, scripts, silent, []);
      var silently := ItemsOf(s, l)[0] in silent;
      DrainInv(Fired(s, l, First(scripts), silent), l, m, now, if silently then scripts else Rest(scripts), silent);
    }
  }

  lemma StoppedInv(s: State, l: nat, m: nat, now: int)
    requires Inv(s, l) && Numbered(s, l, m) && Stops(s, l, m, now) && s.loop <= now
    ensures Inv(Stopped(s, l, m, now), NONE) && Waiting(Stopped(s, l, m, now), l, m, now) == []
  {
    hide Inv, DueIn, QueueOk;
    if ItemsOf(s, l) == [] {
      OverInv(s, l, m);
      NothingDue(s.start, now, m);
    } else {
      NoneWaiting(s, l, m, now, l);
      RestartedInv(s, l, m, now);
    }
  }

  lemma OverInv(s: State, l: nat, m: nat)
    requires Inv(s, l) && Numbered(s, l, m) && ItemsOf(s, l) == []
    ensures Inv(Over(s, l, m), NONE)
  {
    GoneInv(s, Over(s, l, m), l, l);
  }

  lemma RestartedInv(s: State, l: nat, m: nat, now: int)
    requires Inv(s, l) && Numbered(s, l, m) && ItemsOf(s, l) != [] && ItemsOf(s, l)[0] in s.start && s.loop <= now
    ensures Inv(Restarted(s, l, m, now), NONE)
  {
    hide QueueOk, WatchOk;
    var s' := Restarted(s, l, m, now);
    forall k | k in s'.lists ensures ListOk(s', k) && WatchOk(s', k) {
      assert ListOk(s, k) && (k != l ==> WatchOk(s, k));
      if k == l {
        RestartedList(s, l, m, now);
      } else {
        ListSame(s, s', k);
      }
    }
  }

  lemma RestartedList(s: State, l: nat, m: nat, now: int)
    requires l in s.lists && ListOk(s, l) && s.lists[l].ms == m && ItemsOf(s, l) != [] && ItemsOf(s, l)[0] in s.start && s.loop <= now
    ensures ListOk(Restarted(s, l, m, now), l) && WatchOk(Restarted(s, l, m, now), l)
  {
    hide Unique;
    QueueStays(s, Restarted(s, l, m, now), l, m, s.lists[l].items);
  }

  // ---------- what a run fires ----------

  /** r holds elements of w, each once, in the order they have in w. */
  predicate InOrder<T(==)>(r: seq<T>, w: seq<T>) {
    && (forall k :: 0 <= k < |r| ==> r[k] in w)
    && (forall i, j :: 0 <= i < j < |r| ==> IndexOf(w, r[i]) < IndexOf(w, r[j]))
  }

  lemma {:induction false} IndexUnique<T>(w: seq<T>, k: nat)
    requires Unique(w) && k < |w|
    ensures IndexOf(w, w[k]) == k
  {
    var i := IndexOf(w, w[k]);
  }

  lemma InOrderTrans<T>(a: seq<T>, b: seq<T>, c: seq<T>)
    requires InOrder(a, b) && InOrder(b, c)
    ensures InOrder(a, c)
  {
    forall i, j | 0 <= i < j < |a| ensures IndexOf(c, a[i]) < IndexOf(c, a[j]) {
      var p, q := IndexOf(b, a[i]), IndexOf(b, a[j]);
      assert b[p] == a[i] && b[q] == a[j];
    }
  }

  lemma MinusInOrder<T>(w: seq<T>, x: T)
    requires Unique(w)
    ensures InOrder(Minus(w, x), w) && Unique(Minus(w, x))
  {
    MinusFacts(w, x);
    var r := Minus(w, x);
    forall i, j | 0 <= i < j < |r| ensures IndexOf(w, r[i]) < IndexOf(w, r[j]) {
      var k := if x in w then IndexOf(w, x) else |w|;
      var p, q := if i < k then i else i + 1, if j < k then j else j + 1;
      assert r[i] == w[p] && r[j] == w[q];
      IndexUnique(w, p);
      IndexUnique(w, q);
    }
  }

  /** The script re-arms the item, or takes it off its list. */
  predicate Moves(script: seq<Action>, x: Item) {
    exists i :: 0 <= i < |script| && !script[i].Wait? && script[i].item == x
  }

  lemma {:induction false} SparedInOrder(waiting: seq<Item>, script: seq<Action>)
    requires Unique(waiting)
    ensures InOrder(Spared(waiting, script), waiting) && Unique(Spared(waiting, script))
    ensures forall x :: x in waiting && x !in Spared(waiting, script) ==> Moves(script, x)
    decreases |script|
  {
    if script == [] {
      forall i | 0 <= i < |waiting| ensures IndexOf(waiting, waiting[i]) == i {
        IndexUnique(waiting, i);
      }
    } else {
      var next := if script[0].Wait? then waiting else Minus(waiting, script[0].item);
      if !script[0].Wait? {
        MinusInOrder(waiting, script[0].item);
        MinusIs(waiting, script[0].item);
      }
      SparedInOrder(next, script[1..]);
      if !script[0].Wait? {
        InOrderTrans(Spared(waiting, script), next, waiting);
      }
    }
  }

  lemma ConsInOrder<T>(w: seq<T>, r: seq<T>)
    requires w != [] && Unique(w) && InOrder(r, w[1..])
    ensures InOrder(r, w) && InOrder([w[0]] + r, w)
  {
    var t := w[1..];
    forall x | x in t ensures x in w && IndexOf(w, x) == IndexOf(t, x) + 1 {
      var k := IndexOf(t, x);
      assert w[k + 1] == x;
      IndexUnique(w, k + 1);
    }
    IndexUnique(w, 0);
  }

  /** What is fired waited: no callback runs before its time, none twice, and the oldest first. */
  lemma {:induction false} FiresInOrder(waiting: seq<Item>, scripts: seq<seq<Action>>, silent: set<Item>)
    requires Unique(waiting)
    ensures var fired := Fires(waiting, scripts, silent);
      InOrder(fired, waiting) && forall x :: x in fired ==> x !in silent
    decreases |waiting|
  {
    if waiting != [] {
      var rest := waiting[1..];
      if waiting[0] in silent {
        FiresInOrder(rest, scripts, silent);
        ConsInOrder(waiting, Fires(rest, scripts, silent));
      } else {
        var spared := Spared(rest, First(scripts));
        SparedInOrder(rest, First(scripts));
        FiresInOrder(spared, Rest(scripts), silent);
        InOrderTrans(Fires(spared, Rest(scripts), silent), spared, rest);
        ConsInOrder(waiting, Fires(spared, Rest(scripts), silent));
      }
    }
  }

  /** What waited and was not fired has no callback, or a callback that ran before its turn re-armed it or took it off. */
  lemma {:induction false} FiresComplete(waiting: seq<Item>, scripts: seq<seq<Action>>, silent: set<Item>, x: Item)
    requires Unique(waiting) && x in waiting && x !in silent && x !in Fires(waiting, scripts, silent)
    ensures exists k :: 0 <= k < |scripts| && k < |Fires(waiting, scripts, silent)| && Moves(scripts[k], x)
    decreases |waiting|
  {
    var rest := waiting[1..];
    if waiting[0] in silent {
      FiresComplete(rest, scripts, silent, x);
    } else {
      SparedInOrder(rest, First(scripts));
      var spared, fired := Spared(rest, First(scripts)), Fires(waiting, scripts, silent);
      if x in spared {
        FiresComplete(spared, Rest(scripts), silent, x);
        var k :| 0 <= k < |Rest(scripts)| && k < |Fires(spared, Rest(scripts), silent)| && Moves(Rest(scripts)[k], x);
        assert Moves(scripts[k + 1], x);
      } else {
        assert Moves(scripts[0], x) && |fired| > 0;
      }
    }
  }

  // ---------- what a run fires, for every timeout ----------

  lemma {:induction false} DueIs(start: map<Item, int>, now: int, m: int, q: seq<Item>, x: Item)
    ensures x in DueIn(start, now, m, q) <==> x in q && x in start && IsDue(now, start[x], m)
  {
    if q != [] {
      DueIs(start, now, m, q[1..], x);
    }
  }

  /** Starting one item makes no other one due. */
  lemma ActiveStartsOne(s: State, x: Item, y: Item, l: nat, m: nat, now: int, draining: int)
    requires Inv(s, draining) && draining < s.made && l < s.made && x in s.timeout && x != y
    requires y in Waiting(DoActive(s, x), l, m, now)
    ensures y in Waiting(s, l, m, now)
  {
    hide Inv, DueIn, Unlinked, Minus, Listed;
    var n := s.timeout[x];
    if n >= 0 {
      var s1 := Listed(s, n);
      ListedInv(s, n, draining);
      ListedDue(s, n, l, m, now);
      UnlinkedInv(s1, x, draining);
      UnlinkedDue(s1, x, l, m, now, draining);
      var s2 := Unlinked(s1, x);
      StartedDue(s2, x, l, m, now, draining);
      PutStartsOne(Started(s2, x), x, s1.table[n], y, l, m, now);
      MinusIs(Waiting(s1, l, m, now), x);
    }
  }

  lemma PutStartsOne(s: State, x: Item, k: nat, y: Item, l: nat, m: nat, now: int)
    requires x != y && y in Waiting(Put(s, x, k), l, m, now)
    ensures y in Waiting(s, l, m, now)
  {
    hide DueIn;
    DueIs(s.start, now, m, ItemsOf(Put(s, x, k), l), y);
    DueIs(s.start, now, m, ItemsOf(s, l), y);
  }

  lemma ActStartsOne(s: State, a: Action, y: Item, l: nat, m: nat, now: int, draining: int)
    requires Inv(s, draining) && draining < s.made && l < s.made && y in Waiting(Act(s, a), l, m, now)
    ensures y in Waiting(s, l, m, now) || a == Active(y)
  {
    hide Inv, Waiting, DoActive, DoEnroll, DoUnenroll, Minus;
    match a
    case Wait(ms) => WaitDue(s, ms, l, m, now);
    case Active(x) => if x in s.timeout && x != y { ActiveStartsOne(s, x, y, l, m, now, draining); }
    case Enroll(x, msecs) =>
      if x in s.timeout {
        EnrollDue(s, x, msecs, l, m, now, draining);
        MinusIs(Waiting(s, l, m, now), x);
      }
    case Unenroll(x) =>
      if x in s.timeout {
        UnenrollDue(s, x, l, m, now, draining);
        MinusIs(Waiting(s, l, m, now), x);
      }
  }

  lemma {:induction false} PerformStarts(s: State, script: seq<Action>, y: Item, l: nat, m: nat, now: int, draining: int)
    requires Inv(s, draining) && draining < s.made && l < s.made && y in Waiting(Perform(s, script), l, m, now)
    ensures y in Waiting(s, l, m, now) || Active(y) in script
    decreases |script|
  {
    hide Inv, Waiting, Act;
    if script != [] {
      ActInv(s, script[0], draining);
      ActGoesOn(s, script[0]);
      PerformStarts(Act(s, script[0]), script[1..], y, l, m, now, draining);
      if y in Waiting(Act(s, script[0]), l, m, now) {
        ActStartsOne(s, script[0], y, l, m, now, draining);
      }
    }
  }

  /** What comes to wait in a round was started by its callback. */
  lemma FiredStarts(s: State, l: nat, m: nat, now: int, script: seq<Action>, silent: set<Item>, y: Item)
    requires Inv(s, l) && l < s.made && ItemsOf(s, l) != [] && y in Waiting(Fired(s, l, script, silent), l, m, now)
    ensures y in Waiting(s, l, m, now) || (ItemsOf(s, l)[0] !in silent && Active(y) in script)
  {
    hide Inv, Waiting, Unlinked, Perform, Minus;
    var x := ItemsOf(s, l)[0];
    UnlinkedInv(s, x, l);
    UnlinkedGoesOn(s, x);
    UnlinkedDue(s, x, l, m, now, l);
    MinusIs(Waiting(s, l, m, now), x);
    if x !in silent && y !in Waiting(Shifted(s, l), l, m, now) {
      PerformStarts(Shifted(s, l), script, y, l, m, now, l);
    }
  }

  lemma StopsFiresNone(s: State, l: nat, m: nat, now: int, scripts: seq<seq<Action>>, silent: set<Item>)
    requires Inv(s, l) && Numbered(s, l, m) && Stops(s, l, m, now)
    ensures Drain(s, l, m, now, scripts, silent).1 == []
  {
  }

  /** For every timeout, those below two milliseconds included: what a run fires was due when it began, or was started by a
      callback of the run. */
  lemma {:induction false} DrainFiresDue(s: State, l: nat, m: nat, now: int, scripts: seq<seq<Action>>, silent: set<Item>, y: Item)
    requires Inv(s, l) && Numbered(s, l, m) && y in Drain(s, l, m, now, scripts, silent).1
    ensures y !in silent && (y in Waiting(s, l, m, now) || exists k :: 0 <= k < |scripts| && Active(y) in scripts[k])
    decreases |scripts|, |ItemsOf(s, l)|
  {
    hide Inv, Waiting, Unlinked, ItemsOf, Perform, Fired, Drain;
    ItemsTimed(s, l, l);
    if Stops(s, l, m, now) {
      StopsFiresNone(s, l, m, now, scripts, silent);
    } else {
      DrainRound(s, l, m, now, scripts, silent, []);
      FirstWaits(s, l, m, now);
      var x, s' := ItemsOf(s, l)[0], Fired(s, l, First(scripts), silent);
      var scripts' := if x in silent then scripts else Rest(scripts);
      if y != x || x in silent {
        DrainGoesOn(s, l, m, now, scripts, silent, y);
        DrainFiresDue(s', l, m, now, scripts', silent, y);
        if y in Waiting(s', l, m, now) {
          FiredStarts(s, l, m, now, First(scripts), silent, y);
        }
        if y !in Waiting(s, l, m, now) {
          StartedLater(scripts, y);
        }
      }
    }
  }

  /** An item that is fired and is not the first is fired in the rest of the run. */
  lemma DrainGoesOn(s: State, l: nat, m: nat, now: int, scripts: seq<seq<Action>>, silent: set<Item>, y: Item)
    requires Inv(s, l) && Numbered(s, l, m) && !Stops(s, l, m, now) && ItemsOf(s, l)[0] in s.start
    requires y in Drain(s, l, m, now, scripts, silent).1 && (y != ItemsOf(s, l)[0] || ItemsOf(s, l)[0] in silent)
    ensures var s' := Fired(s, l, First(scripts), silent);
      && Inv(s', l) && Numbered(s', l, m)
      && y in Drain(s', l, m, now, if ItemsOf(s, l)[0] in silent then scripts else Rest(scripts), silent).1
  {
    hide Inv, Unlinked, ItemsOf, Perform, Fired;
    DrainRound(s, l, m, now, scripts, silent, []);
    var x, s' := ItemsOf(s, l)[0], Fired(s, l, First(scripts), silent);
    var d, d' := Drain(s, l, m, now, scripts, silent), Drain(s', l, m, now, if x in silent then scripts else Rest(scripts), silent);
    assert [] + d.1 == d.1 && [] + d'.1 == d'.1 && [] + [x] == [x];
  }

  lemma StartedLater(scripts: seq<seq<Action>>, y: Item)
    requires || (exists k :: 0 <= k < |Rest(scripts)| && Active(y) in Rest(scripts)[k])
             || (exists k :: 0 <= k < |scripts| && Active(y) in scripts[k]) || Active(y) in First(scripts)
    ensures exists k :: 0 <= k < |scripts| && Active(y) in scripts[k]
  {
  }

  // ---------- in milliseconds ----------

  /** Who waits: the items of the list that were started at least its timeout ago, less the one millisecond that is granted. */
  lemma WaitingIs(s: State, l: nat, m: nat, now: int, y: Item)
    ensures y in Waiting(s, l, m, now) <==> y in ItemsOf(s, l) && y in s.start && now - s.start[y] + 1 >= m
  {
    DueIs(s.start, now, m, ItemsOf(s, l), y);
  }

  /** From active on: an item waits to be fired after some milliseconds just when they are no less than its timeout, less one. */
  lemma WaitedIsDue(s: State, x: Item, ms: nat, draining: int)
    requires Inv(s, draining) && draining < s.made && x in s.timeout && s.timeout[x] >= 0
    ensures var t, m := Act(Act(s, Active(x)), Wait(ms)), s.timeout[x];
      && m in t.table && t.clock == s.clock + ms && (x in Waiting(t, t.table[m as nat], m, t.clock) <==> ms + 1 >= m)
  {
    hide Inv, DoActive, Waiting, ItemsOf;
    ActiveIs(s, x, 0, draining);
    var t, m := Act(Act(s, Active(x)), Wait(ms)), s.timeout[x];
    var l := t.table[m as nat];
    WaitKeeps(Act(s, Active(x)), ms, l);
    assert ItemsOf(t, l)[|ItemsOf(t, l)| - 1] == x;
    WaitingIs(t, l, m, t.clock, x);
  }

  lemma WaitKeeps(s: State, ms: nat, l: nat)
    ensures var t := Act(s, Wait(ms)); t == s.(clock := t.clock) && ItemsOf(t, l) == ItemsOf(s, l)
  {
  }

  lemma FiredWaited(waiting: seq<Item>, scripts: seq<seq<Action>>, silent: set<Item>, y: Item)
    requires Unique(waiting) && y in Fires(waiting, scripts, silent)
    ensures y in waiting && y !in silent
  {
    hide Unique, Fires;
    FiresInOrder(waiting, scripts, silent);
  }

  lemma {:induction false} DueUnique(start: map<Item, int>, now: int, m: int, q: seq<Item>)
    requires Unique(q)
    ensures Unique(DueIn(start, now, m, q))
  {
    if q != [] {
      assert forall i, j :: 0 <= i < j < |q[1..]| ==> q[1..][i] != q[1..][j];
      DueUnique(start, now, m, q[1..]);
      DueAreIn(start, now, m, q[1..]);
      assert q[0] !in q[1..];
    }
  }

  lemma WaitingUnique(s: State, l: nat, m: nat, now: int, draining: int)
    requires Inv(s, draining)
    ensures Unique(Waiting(s, l, m, now))
  {
    hide DueIn;
    if l in s.lists {
      assert ListOk(s, l);
    }
    DueUnique(s.start, now, m, ItemsOf(s, l));
  }

  /** No callback runs too early: an item that is fired was started at least its timeout ago, but for the one millisecond. */
  lemma NoneEarly(s: State, l: nat, m: nat, now: int, scripts: seq<seq<Action>>, silent: set<Item>, y: Item)
    requires Inv(s, l) && Numbered(s, l, m) && m >= 2 && now <= s.clock && y in Drain(s, l, m, now, scripts, silent).1
    ensures y !in silent && y in ItemsOf(s, l) && y in s.start && now - s.start[y] + 1 >= m
  {
    hide Inv, Waiting, Drain, Fires, ItemsOf;
    DrainFires(s, l, m, now, scripts, silent);
    WaitingUnique(s, l, m, now, l);
    FiredWaited(Waiting(s, l, m, now), scripts, silent, y);
    WaitingIs(s, l, m, now, y);
  }

  /** None is missed: an item started that long ago, and with a callback, is fired unless a callback that ran re-armed it or took it off. */
  lemma NoneMissed(s: State, l: nat, m: nat, now: int, scripts: seq<seq<Action>>, silent: set<Item>, y: Item)
    requires Inv(s, l) && Numbered(s, l, m) && m >= 2 && now <= s.clock
    requires y in ItemsOf(s, l) && y in s.start && now - s.start[y] + 1 >= m && y !in silent
    ensures var fired := Drain(s, l, m, now, scripts, silent).1;
      y in fired || exists k, i ::
        0 <= k < |scripts| && k < |fired| && 0 <= i < |scripts[k]| && !scripts[k][i].Wait? && scripts[k][i].item == y
  {
    hide Inv, Waiting, Drain, Fires, ItemsOf;
    DrainFires(s, l, m, now, scripts, silent);
    WaitingUnique(s, l, m, now, l);
    WaitingIs(s, l, m, now, y);
    if y !in Drain(s, l, m, now, scripts, silent).1 {
      FiresComplete(Waiting(s, l, m, now), scripts, silent, y);
    }
  }

  /** The watcher is started again for what remains of the oldest item's time, counted from the time the run began. */
  lemma {:induction false} DrainRewatches(s: State, l: nat, m: nat, now: int, scripts: seq<seq<Action>>, silent: set<Item>)
    requires Inv(s, l) && Numbered(s, l, m)
    ensures var t := Drain(s, l, m, now, scripts, silent).0; l in t.lists ==>
      ItemsOf(t, l) != [] && ItemsOf(t, l)[0] in t.start && t.lists[l].due - t.loop == t.start[ItemsOf(t, l)[0]] + m - now
    decreases |scripts|, |ItemsOf(s, l)|
  {
    hide Inv, Unlinked, Perform, Fired;
    ItemsTimed(s, l, l);
    if Stops(s, l, m, now) {
      DrainEnds(s, l, m, now, scripts, silent, []);
    } else {
      DrainRound(s, l, m, now, scripts, silent, []);
      var silently := ItemsOf(s, l)[0] in silent;
      DrainRewatches(Fired(s, l, First(scripts), silent), l, m, now, if silently then scripts else Rest(scripts), silent);
    }
  }

  // ---------- the table ----------

  /** The lists of the table have items when nothing is being drained: what unenroll closes empty lists for. */
  lemma ActStocked(s: State, a: Action, draining: int)
    requires Inv(s, draining) && draining < s.made && Stocked(s, draining)
    ensures Stocked(Act(s, a), draining)
  {
    hide Inv, DoActive, DoUnenroll, ItemsOf;
    match a
    case Wait(ms) => SameStocked(s, Act(s, a), draining);
    case Active(x) => if x in s.timeout { ActiveStocked(s, x, draining); }
    case Enroll(x, msecs) =>
      if x in s.timeout {
        UnenrollStocked(s, x, draining);
        SameStocked(if x in s.alone || x in s.on then DoUnenroll(s, x) else s, Act(s, a), draining);
      }
    case Unenroll(x) => if x in s.timeout { UnenrollStocked(s, x, draining); }
  }

  lemma SameStocked(s: State, s': State, draining: int)
    requires Stocked(s, draining) && s'.lists == s.lists && s'.table == s.table
    ensures Stocked(s', draining)
  {
  }

  /** An item of one timeout is on no list of another. */
  lemma OtherTimeout(s: State, x: Item, n: nat, draining: int)
    requires Inv(s, draining) && x in s.timeout && n in s.table && s.timeout[x] != n
    ensures x !in ItemsOf(s, s.table[n]) && (x in s.on ==> s.on[x] != s.table[n])
  {
    assert ListOk(s, s.table[n]);
  }

  lemma ActiveStocked(s: State, x: Item, draining: int)
    requires Inv(s, draining) && draining < s.made && x in s.timeout && Stocked(s, draining)
    ensures Stocked(DoActive(s, x), draining)
  {
    hide Inv, Minus;
    var m := s.timeout[x];
    if m >= 0 {
      var s1 := Listed(s, m);
      ListedInv(s, m, draining);
      TableApart(s1, m, draining);
      ListedRest(s, m);
      Numbers(s, draining);
      forall n | n in s1.table && n != m ensures x !in ItemsOf(s1, s1.table[n]) && (x in s1.on ==> s1.on[x] != s1.table[n]) {
        OtherTimeout(s1, x, n, draining);
      }
    }
  }

  lemma UnenrollStocked(s: State, x: Item, draining: int)
    requires Inv(s, draining) && x in s.timeout && Stocked(s, draining)
    ensures Stocked(DoUnenroll(s, x), draining)
  {
    hide QueueOk, ListOk, WatchOk, Minus;
    var m := s.timeout[x];
    if m in s.table {
      TableApart(s, m as nat, draining);
    }
    forall n | n in s.table && n != m ensures x in s.on ==> s.on[x] != s.table[n] {
      OtherTimeout(s, x, n, draining);
    }
  }

  // ---------- whole runs ----------

  lemma Draining(s: State, l: nat)
    requires Inv(s, NONE)
    ensures Inv(s, l)
  {
  }

  /** What can happen outside a drain: an action, a new turn of the event loop, or the watcher of list l going off. */
  datatype Event = Do(action: Action) | Turn | Fire(l: nat, scripts: seq<seq<Action>>)

  function Step(s: State, e: Event, silent: set<Item>): State
    requires Inv(s, NONE)
  {
    match e
    case Do(a) => Act(s, a)
    case Turn => s.(loop := s.clock)
    case Fire(l, scripts) =>
      if l in s.lists then
        Draining(s, l);
        Numbers(s, NONE);
        Drain(s, l, s.lists[l].ms, s.clock, scripts, silent).0
      else s
  }

  lemma StepInv(s: State, e: Event, silent: set<Item>)
    requires Inv(s, NONE)
    ensures Inv(Step(s, e, silent), NONE)
  {
    hide Drain, Act, QueueOk;
    match e
    case Do(a) => ActInv(s, a, NONE);
    case Turn =>
      forall l | l in s.lists ensures ListOk(s.(loop := s.clock), l) && WatchOk(s.(loop := s.clock), l) {
        assert ListOk(s, l) && WatchOk(s, l);
        ListSame(s, s.(loop := s.clock), l);
      }
    case Fire(l, scripts) =>
      if l in s.lists {
        Draining(s, l);
        Numbers(s, NONE);
        DrainInv(s, l, s.lists[l].ms, s.clock, scripts, silent);
      }
  }

  function Initial(items: set<Item>, clock: int): State {
    State(map[], map[], 0, map[], map[], map x | x in items :: -1, {}, clock, clock)
  }

  function Run(s: State, events: seq<Event>, silent: set<Item>): State
    requires Inv(s, NONE)
    decreases |events|
  {
    if events == [] then s
    else
      StepInv(s, events[0], silent);
      Run(Step(s, events[0], silent), events[1..], silent)
  }

  lemma {:induction false} RunInv(s: State, events: seq<Event>, silent: set<Item>)
    requires Inv(s, NONE)
    ensures Inv(Run(s, events, silent), NONE)
    decreases |events|
  {
    hide Inv, Step;
    if events != [] {
      StepInv(s, events[0], silent);
      RunInv(Step(s, events[0], silent), events[1..], silent);
    }
  }

  lemma InitialInv(items: set<Item>, clock: int)
    ensures Inv(Initial(items, clock), NONE) && Stocked(Initial(items, clock), NONE)
  {
  }

  function RunFromStart(items: set<Item>, clock: int, events: seq<Event>, silent: set<Item>): State {
    InitialInv(items, clock);
    Run(Initial(items, clock), events, silent)
  }

  /** One watcher per list does the work of one timer per item: after any run of operations and drains, every item that is on a
      list, be the list in the table or not, is on one for its timeout, whose watcher goes off no later than the item is due. */
  lemma EveryItemIsWatched(items: set<Item>, clock: int, events: seq<Event>, silent: set<Item>, x: Item)
    ensures var s := RunFromStart(items, clock, events, silent);
      x in s.on ==>
        && s.on[x] in s.lists && x in s.lists[s.on[x]].items && x in s.start && x in s.timeout
        && s.timeout[x] == s.lists[s.on[x]].ms && s.lists[s.on[x]].due <= s.start[x] + s.timeout[x]
  {
    InitialInv(items, clock);
    RunInv(Initial(items, clock), events, silent);
    var s := RunFromStart(items, clock, events, silent);
    if x in s.on {
      ItemWatched(s, x);
    }
  }

  lemma ItemWatched(s: State, x: Item)
    requires Inv(s, NONE) && x in s.on
    ensures var l := s.on[x];
      && l in s.lists && x in s.lists[l].items && x in s.start && x in s.timeout
      && s.timeout[x] == s.lists[l].ms && s.lists[l].due <= s.start[x] + s.timeout[x]
  {
    var l := s.on[x];
    assert ListOk(s, l) && WatchOk(s, l);
    var k :| 0 <= k < |s.lists[l].items| && s.lists[l].items[k] == x;
    assert s.start[s.lists[l].items[0]] <= s.start[x];
  }

  // ---------- the table, in runs ----------

  lemma {:induction false} PerformStocked(s: State, script: seq<Action>, draining: int)
    requires Inv(s, draining) && draining < s.made && Stocked(s, draining)
    ensures Stocked(Perform(s, script), draining)
    decreases |script|
  {
    hide Inv, Act, Stocked;
    if script != [] {
      ActInv(s, script[0], draining);
      ActGoesOn(s, script[0]);
      ActStocked(s, script[0], draining);
      PerformStocked(Act(s, script[0]), script[1..], draining);
    }
  }

  lemma ShiftedStocked(s: State, l: nat)
    requires Inv(s, l) && ItemsOf(s, l) != [] && Stocked(s, l)
    ensures Stocked(Shifted(s, l), l)
  {
    assert ListOk(s, l);
  }

  lemma FiredStocked(s: State, l: nat, script: seq<Action>, silent: set<Item>)
    requires Inv(s, l) && l < s.made && ItemsOf(s, l) != [] && Stocked(s, l)
    ensures Stocked(Fired(s, l, script, silent), l)
  {
    hide Inv, Unlinked, Perform, Stocked;
    var x := ItemsOf(s, l)[0];
    ShiftedStocked(s, l);
    UnlinkedInv(s, x, l);
    UnlinkedGoesOn(s, x);
    if x !in silent {
      PerformStocked(Shifted(s, l), script, l);
    }
  }

  lemma StoppedStocked(s: State, l: nat, m: nat, now: int)
    requires Inv(s, l) && Numbered(s, l, m) && Stops(s, l, m, now) && Stocked(s, l)
    ensures Stocked(Stopped(s, l, m, now), NONE)
  {
    hide ListOk, WatchOk;
  }

  lemma {:induction false} DrainStocked(s: State, l: nat, m: nat, now: int, scripts: seq<seq<Action>>, silent: set<Item>)
    requires Inv(s, l) && Numbered(s, l, m) && Stocked(s, l)
    ensures Stocked(Drain(s, l, m, now, scripts, silent).0, NONE)
    decreases |scripts|, |ItemsOf(s, l)|
  {
    hide Inv, Unlinked, ItemsOf, Perform, Stopped, Fired, Stocked;
    ItemsTimed(s, l, l);
    if Stops(s, l, m, now) {
      DrainEnds(s, l, m, now, scripts, silent, []);
      StoppedStocked(s, l, m, now);
    } else {
      DrainRound(s, l, m, now, scripts, silent, []);
      FiredStocked(s, l, First(scripts), silent);
      var silently := ItemsOf(s, l)[0] in silent;
      DrainStocked(Fired(s, l, First(scripts), silent), l, m, now, if silently then scripts else Rest(scripts), silent);
    }
  }

  lemma StockedDraining(s: State, l: nat)
    requires Stocked(s, NONE)
    ensures Stocked(s, l)
  {
  }

  lemma StepStocked(s: State, e: Event, silent: set<Item>)
    requires Inv(s, NONE) && Stocked(s, NONE)
    ensures Stocked(Step(s, e, silent), NONE)
  {
    hide Inv, Drain, Act, Stocked, ItemsOf;
    match e
    case Do(a) => ActStocked(s, a, NONE);
    case Turn => SameStocked(s, s.(loop := s.clock), NONE);
    case Fire(l, scripts) =>
      if l in s.lists {
        Draining(s, l);
        Numbers(s, NONE);
        StockedDraining(s, l);
        DrainStocked(s, l, s.lists[l].ms, s.clock, scripts, silent);
      }
  }

  /** Between operations no list of the table is empty, after any run: `active` then makes a list if and only if there is none. */
  lemma {:induction false} RunStocked(s: State, events: seq<Event>, silent: set<Item>)
    requires Inv(s, NONE) && Stocked(s, NONE)
    ensures Stocked(Run(s, events, silent), NONE)
    decreases |events|
  {
    hide Inv, Step, Stocked;
    if events != [] {
      StepInv(s, events[0], silent);
      StepStocked(s, events[0], silent);
      RunStocked(Step(s, events[0], silent), events[1..], silent);
    }
  }

  // ---------- lists that are forgotten ----------

  /** The list is there, and no item goes to it any more. */
  predicate Forgotten(s: State, k: nat) {
    k in s.lists && !(s.lists[k].ms in s.table && s.table[s.lists[k].ms] == k)
  }

  /** No operation forgets a list. */
  lemma ActForgetsNone(s: State, a: Action, k: nat, draining: int)
    requires Inv(s, draining) && draining < s.made && Forgotten(Act(s, a), k)
    ensures Forgotten(s, k)
  {
    hide Inv, QueueOk, Minus;
    Numbers(s, draining);
    match a
    case Wait(ms) =>
    case Active(x) => if x in s.timeout { ActiveForgetsNone(s, x, k); }
    case Enroll(x, msecs) => if x in s.timeout && (x in s.alone || x in s.on) { DropForgetsNone(s, x, k); }
    case Unenroll(x) => if x in s.timeout { DropForgetsNone(s, x, k); }
  }

  lemma PutSame(s: State, x: Item, l: nat)
    ensures SameLists(s, Put(s, x, l))
  {
  }

  lemma ActiveForgetsNone(s: State, x: Item, k: nat)
    requires x in s.timeout && Forgotten(DoActive(s, x), k)
    ensures Forgotten(s, k)
  {
    hide Unlinked, Put;
    var m := s.timeout[x];
    if m >= 0 {
      var s1 := Listed(s, m);
      UnlinkedSame(s1, x);
      PutSame(Started(Unlinked(s1, x), x), x, s1.table[m]);
      assert SameLists(s1, DoActive(s, x));
    }
  }

  lemma DropForgetsNone(s: State, x: Item, k: nat)
    requires x in s.timeout && Forgotten(Drop(s, x), k)
    ensures Forgotten(s, k)
  {
    hide Unlinked;
    UnlinkedSame(s, x);
  }

  lemma {:induction false} PerformForgetsNone(s: State, script: seq<Action>, k: nat, draining: int)
    requires Inv(s, draining) && draining < s.made && Forgotten(Perform(s, script), k)
    ensures Forgotten(s, k)
    decreases |script|
  {
    hide Inv, Act, Forgotten;
    if script != [] {
      ActInv(s, script[0], draining);
      ActGoesOn(s, script[0]);
      PerformForgetsNone(Act(s, script[0]), script[1..], k, draining);
      ActForgetsNone(s, script[0], k, draining);
    }
  }

  /** The end of a drain forgets a list if and only if it is another one that the table has for the same timeout. */
  lemma OverForgets(s: State, l: nat, m: nat, k: nat)
    requires Inv(s, l) && Numbered(s, l, m) && k in s.lists && k != l
    ensures Forgotten(Over(s, l, m), k) <==> Forgotten(s, k) || (m in s.table && s.table[m] == k)
  {
    hide ListOk, WatchOk;
  }

  lemma FiredForgetsNone(s: State, l: nat, script: seq<Action>, silent: set<Item>, k: nat)
    requires Inv(s, l) && l < s.made && ItemsOf(s, l) != [] && Forgotten(Fired(s, l, script, silent), k)
    ensures Forgotten(s, k)
  {
    hide Inv, Unlinked, Perform;
    var x := ItemsOf(s, l)[0];
    UnlinkedInv(s, x, l);
    UnlinkedGoesOn(s, x);
    UnlinkedSame(s, x);
    if x !in silent {
      PerformForgetsNone(Shifted(s, l), script, k, l);
    }
  }

  lemma StoppedForgets(s: State, l: nat, m: nat, now: int, k: nat)
    requires Inv(s, l) && Numbered(s, l, m) && Stops(s, l, m, now) && Forgotten(Stopped(s, l, m, now), k)
    ensures Forgotten(s, k) || Stopped(s, l, m, now).lists[k].ms == m
  {
    hide ListOk, WatchOk;
  }

  /** A drain forgets no list but one for its own timeout. */
  lemma {:induction false} DrainForgets(s: State, l: nat, m: nat, now: int, scripts: seq<seq<Action>>, silent: set<Item>, k: nat)
    requires Inv(s, l) && Numbered(s, l, m) && Forgotten(Drain(s, l, m, now, scripts, silent).0, k)
    ensures Forgotten(s, k) || Drain(s, l, m, now, scripts, silent).0.lists[k].ms == m
    decreases |scripts|, |ItemsOf(s, l)|
  {
    hide Inv, Unlinked, ItemsOf, Perform, Stopped, Fired, Forgotten;
    ItemsTimed(s, l, l);
    if Stops(s, l, m, now) {
      DrainEnds(s, l, m, now, scripts, silent, []);
      StoppedForgets(s, l, m, now, k);
    } else {
      DrainRound(s, l, m, now, scripts, silent, []);
      var s', silently := Fired(s, l, First(scripts), silent), ItemsOf(s, l)[0] in silent;
      DrainForgets(s', l, m, now, if silently then scripts else Rest(scripts), silent, k);
      if Forgotten(s', k) {
        FiredForgetsNone(s, l, First(scripts), silent, k);
      }
    }
  }

  lemma PerformThree(s: State, a: Action, b: Action, c: Action)
    ensures Perform(s, [a, b, c]) == Act(Act(Act(s, a), b), c)
  {
    hide Act;
    PerformFirst(s, a, [b, c]);
    PerformFirst(Act(s, a), b, [c]);
    PerformFirst(Act(Act(s, a), b), c, []);
    assert [a] + [b, c] == [a, b, c] && [b] + [c] == [b, c] && [c] + [] == [c];
  }

  lemma PerformFirst(s: State, a: Action, script: seq<Action>)
    ensures Perform(s, [a] + script) == Perform(Act(s, a), script)
  {
    assert ([a] + script)[1..] == script;
  }

  /** The only item of a list is shifted, and unenrolled by its callback: the list is closed. */
  lemma ClearedCloses(s: State, l: nat, m: nat, x: Item)
    requires Inv(s, l) && m in s.table && s.table[m] == l && ItemsOf(s, l) == [x] && x in s.timeout && s.timeout[x] == m
    requires x in s.on && s.on[x] == l
    ensures var s1, s' := Shifted(s, l), DoUnenroll(Shifted(s, l), x);
      && x in s1.timeout && x !in s'.on && l !in s'.lists && m !in s'.table
      && s' == s1.(lists := s'.lists, table := s'.table, alone := s'.alone, timeout := s'.timeout)
      && s'.alone == s.alone - {x} && s'.timeout == s.timeout[x := -1] && s'.on == s.on - {x} && s1.made == s.made && s1.loop == s.loop
  {
    hide ListOk, WatchOk;
    var s1 := Shifted(s, l);
    assert Minus([x], x) == [];
    assert s1.alone - {x} == s1.alone;
    assert Unlinked(s1, x) == s1;
  }

  /** An item is enrolled for a timeout that has no list, and started. */
  lemma SetMakesList(s: State, m: nat, y: Item)
    requires m !in s.table && y in s.timeout && y !in s.on && y !in s.alone
    ensures var s' := DoActive(DoEnroll(s, y, m), y);
      && y in s'.on && s'.on[y] == s.made && s'.lists == s.lists[s.made := List(m, [y], s.loop + m)] && s'.table == s.table[m := s.made]
  {
    var l, s1 := s.made, DoEnroll(s, y, m);
    assert DoActive(s1, y).lists == Listed(s1, m).lists[l := List(m, [] + [y], s.loop + m)];
    assert [] + [y] == [y];
  }

  /** The last item of a list is taken off in its own callback, and another one started for the same timeout, as clearTimeout and
      setTimeout do: the other one's list is forgotten as soon as it is made; its watcher has been started. */
  lemma ClearedAndSet(s: State, l: nat, m: nat, x: Item, y: Item, silent: set<Item>)
    requires Inv(s, l) && m in s.table && s.table[m] == l && ItemsOf(s, l) == [x] && x in s.start && IsDue(s.clock, s.start[x], m)
    requires x !in silent && y in s.timeout && y !in s.on && y !in s.alone && x != y
    ensures Numbered(s, l, m)
    ensures var d := Drain(s, l, m, s.clock, [[Unenroll(x), Enroll(y, m), Active(y)]], silent);
      && d.1 == [x] && y in d.0.on && d.0.on[y] in d.0.lists && Forgotten(d.0, d.0.on[y])
      && d.0.lists[d.0.on[y]] == List(m, [y], s.loop + m)
  {
    hide WatchOk, DoUnenroll, DoEnroll, DoActive, Unlinked, Drain, Perform;
    assert ListOk(s, l);
    var script, s1 := [Unenroll(x), Enroll(y, m), Active(y)], Shifted(s, l);
    ClearedCloses(s, l, m, x);
    var s2 := DoUnenroll(s1, x);
    SetMakesList(s2, m, y);
    EnrollTimes(s2, y, m);
    PerformThree(s1, script[0], script[1], script[2]);
    var s' := Fired(s, l, script, silent);
    assert s' == DoActive(DoEnroll(s2, y, m), y) && ItemsOf(s', l) == [];
    OneRound(s, l, m, x, script, silent);
  }

  /** The only item of a list is fired, and the list is empty afterwards. */
  lemma OneRound(s: State, l: nat, m: nat, x: Item, script: seq<Action>, silent: set<Item>)
    requires Inv(s, l) && Numbered(s, l, m) && ItemsOf(s, l) == [x] && x in s.start && IsDue(s.clock, s.start[x], m) && x !in silent
    requires ItemsOf(Fired(s, l, script, silent), l) == []
    ensures Drain(s, l, m, s.clock, [script], silent) == (Over(Fired(s, l, script, silent), l, m), [x])
  {
    hide Drain, Perform, Unlinked, Inv, ItemsOf;
    assert First([script]) == script && Rest([script]) == [];
    DrainRound(s, l, m, s.clock, [script], silent, []);
    DrainEnds(Fired(s, l, script, silent), l, m, s.clock, [], silent, [x]);
    var d := Drain(s, l, m, s.clock, [script], silent);
    assert [] + d.1 == d.1 && [] + [x] == [x];
  }

  lemma EnrollTimes(s: State, x: Item, msecs: nat)
    requires x in s.timeout
    ensures x in DoEnroll(s, x, msecs).timeout
  {
    hide Unlinked;
  }

  /** An item that its own callback starts again is fired once more in the same drain only if its list is still the one for its
      timeout, and for timeouts below two milliseconds. */
  lemma RearmedFires(s: State, l: nat, m: nat, x: Item, silent: set<Item>)
    requires Inv(s, l) && Numbered(s, l, m) && ItemsOf(s, l) == [x] && x in s.start && IsDue(s.clock, s.start[x], m) && x !in silent
    ensures Drain(s, l, m, s.clock, [[Active(x)]], silent).1 == if m < 2 && m in s.table && s.table[m] == l then [x, x] else [x]
  {
    hide Inv, Perform, Unlinked, ItemsOf, Drain;
    var scripts, script, now := [[Active(x)]], [Active(x)], s.clock;
    assert First(scripts) == script && Rest(scripts) == [];
    DrainRound(s, l, m, now, scripts, silent, []);
    var s' := Fired(s, l, script, silent);
    RearmedAlone(s, l, m, x);
    if m < 2 && m in s.table && s.table[m] == l {
      DrainRound(s', l, m, now, [], silent, [x]);
      ShiftedIs(s', l, l);
      PerformNothing(Shifted(s', l));
      DrainEnds(Shifted(s', l), l, m, now, [], silent, [x, x]);
      assert [x] + [x] == [x, x];
    } else {
      DrainEnds(s', l, m, now, [], silent, [x]);
    }
    var d := Drain(s, l, m, now, scripts, silent);
    assert [] + d.1 == d.1 && [] + [x] == [x];
  }

  /** What the callback leaves. */
  lemma RearmedAlone(s: State, l: nat, m: nat, x: Item)
    requires Inv(s, l) && Numbered(s, l, m) && ItemsOf(s, l) == [x]
    ensures var s' := Perform(Shifted(s, l), [Active(x)]);
      && ItemsOf(s', l) == (if m in s.table && s.table[m] == l then [x] else [])
      && x in s'.start && s'.start[x] == s.clock
  {
    hide WatchOk, Minus;
    assert ListOk(s, l);
    ShiftedIs(s, l, l);
    assert [Active(x)][1..] == [];
    var s1 := Shifted(s, l);
    assert x in s1.timeout && s1.timeout[x] == m && x !in s1.on;
    assert Perform(s1, [Active(x)]) == DoActive(s1, x);
  }
}
