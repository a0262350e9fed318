/** The intrusive circular list of _linklist.js. The functions write the links of objects in the heap;
    `Links` is the value of all those links at one time, and what the functions do to it is proved on values. */
module LinkList {
  import opened Sequences

  /** A JavaScript object with list links: an item, or the object that serves as the sentinel of a list. */
  class Node {
    var idleNext: Node?
    var idlePrev: Node?

    /** A new object has no links. */
    constructor ()
      ensures idleNext == null && idlePrev == null
    {
      idleNext, idlePrev := null, null;
    }
  }

  datatype Link = Link(next: Node?, prev: Node?)

  type Links = map<Node, Link>

  const NO_LINKS := Link(null, null)

  /** h holds the links of nodes. */
  ghost predicate Mirrors(nodes: set<Node>, h: Links)
    reads nodes
  {
    h.Keys == nodes && forall x :: x in nodes ==> x.idleNext == h[x].next && x.idlePrev == h[x].prev
  }

  /** No link leads out of h. */
  ghost predicate Closed(h: Links) {
    forall x :: x in h ==> (h[x].next != null ==> h[x].next in h) && (h[x].prev != null ==> h[x].prev in h)
  }

  // ---------- the functions, on values ----------

  function Inited(h: Links, list: Node): Links {
    h[list := Link(list, list)]
  }

  /** x's successor gets x's predecessor, then x's predecessor gets x's successor, then x gets neither. */
  function Removed(h: Links, x: Node): Links
    requires x in h && Closed(h)
  {
    var n := h[x].next;
    var h1 := if n != null then h[n := h[n].(prev := h[x].prev)] else h;
    var p := h1[x].prev;
    var h2 := if p != null then h1[p := h1[p].(next := h1[x].next)] else h1;
    h2[x := NO_LINKS]
  }

  /** x becomes list's successor. */
  function Inserted(h: Links, list: Node, x: Node): Links
    requires list in h && x in h && h[list].next != null && h[list].next in h
  {
    var n := h[list].next;
    var h1 := h[x := h[x].(next := n)];
    var h2 := h1[n := h1[n].(prev := x)];
    var h3 := h2[x := h2[x].(prev := list)];
    h3[list := h3[list].(next := x)]
  }

  // ---------- what a list is ----------

  /** The links form one circle through the sentinel l and the items q, oldest first:
      idlePrev leads from the sentinel to the oldest item and on to the newer ones, idleNext back. */
  ghost predicate Ring(h: Links, l: Node, q: seq<Node>) {
    && l in h && l !in q && Unique(q)
    && h[l].prev == (if q == [] then l else q[0])
    && h[l].next == (if q == [] then l else q[|q| - 1])
    && forall k :: 0 <= k < |q| ==> Follows(h, l, q, k)
  }

  /** The links of item k of the list. */
  ghost predicate Follows(h: Links, l: Node, q: seq<Node>, k: nat)
    requires k < |q|
  {
    && q[k] in h
    && h[q[k]].prev == (if k + 1 < |q| then q[k + 1] else l)
    && h[q[k]].next == (if k > 0 then q[k - 1] else l)
  }

  lemma Members(h: Links, l: Node, q: seq<Node>)
    requires Ring(h, l, q)
    ensures forall k :: 0 <= k < |q| ==> q[k] in h
  {
    forall k | 0 <= k < |q| ensures q[k] in h {
      assert Follows(h, l, q, k);
    }
  }

  // ---------- what the functions do to lists ----------

  /** A list that does not have the nodes whose links changed is the list it was. */
  lemma RingStays(h: Links, h': Links, l: Node, q: seq<Node>)
    requires Ring(h, l, q)
    requires l in h' && h'[l] == h[l]
    requires forall k :: 0 <= k < |q| ==> q[k] in h && q[k] in h' && h'[q[k]] == h[q[k]]
    ensures Ring(h', l, q)
  {
    forall k | 0 <= k < |q| ensures Follows(h', l, q, k) {
      assert Follows(h, l, q, k);
    }
  }

  /** Taking out an item joins its neighbours, and touches nothing but the list and the item. */
  lemma RemoveFromRing(h: Links, l: Node, q: seq<Node>, k: nat)
    requires Closed(h) && Ring(h, l, q) && k < |q| && q[k] in h
    ensures var h' := Removed(h, q[k]);
      && Ring(h', l, Without(q, k)) && h'[q[k]] == NO_LINKS && q[k] !in Without(q, k)
      && h'.Keys == h.Keys && forall x :: x in h && x != l && x !in q ==> h'[x] == h[x]
  {
    var x, s := q[k], Without(q, k);
    var h' := Removed(h, x);
    assert Follows(h, l, q, k);
    forall j | 0 <= j < |s| ensures Follows(h', l, s, j) {
      var i := if j < k then j else j + 1;
      assert s[j] == q[i] && Follows(h, l, q, i);
    }
  }

  /** Taking out an item that is linked to itself only, or not at all. */
  lemma RemoveAlone(h: Links, x: Node)
    requires Closed(h) && x in h && (h[x] == NO_LINKS || h[x] == Link(x, x))
    ensures Removed(h, x) == h[x := NO_LINKS]
  {
  }

  /** A new item goes to the end. */
  lemma InsertIntoRing(h: Links, l: Node, q: seq<Node>, x: Node)
    requires Closed(h) && Ring(h, l, q) && x in h && x != l && x !in q
    ensures var h' := Inserted(h, l, x);
      && Ring(h', l, q + [x])
      && h'.Keys == h.Keys && forall y :: y in h && y != l && y !in q && y != x ==> h'[y] == h[y]
  {
    var s, h' := q + [x], Inserted(h, l, x);
    if q != [] {
      assert Follows(h, l, q, |q| - 1);
    }
    forall j | 0 <= j < |s| ensures Follows(h', l, s, j) {
      if j < |q| {
        assert Follows(h, l, q, j);
      }
    }
  }

  lemma RemovedClosed(h: Links, x: Node)
    requires Closed(h) && x in h
    ensures Closed(Removed(h, x)) && Removed(h, x).Keys == h.Keys
  {
  }

  lemma InsertedClosed(h: Links, l: Node, x: Node)
    requires Closed(h) && l in h && x in h && h[l].next != null
    ensures Closed(Inserted(h, l, x)) && Inserted(h, l, x).Keys == h.Keys
  {
  }

  // ---------- the functions, on the heap ----------

  method Init(list: Node, ghost nodes: set<Node>, ghost h: Links)
    requires Mirrors(nodes, h)
    modifies list
    ensures Mirrors(nodes + {list}, Inited(h, list))
  {
    list.idleNext := list;
    list.idlePrev := list;
  }

  /** The most idle item. */
  method Peek(list: Node, ghost nodes: set<Node>, ghost h: Links, ghost q: seq<Node>) returns (first: Node?)
    requires Mirrors(nodes, h) && Ring(h, list, q)
    ensures first == if q == [] then null else q[0]
  {
    if list.idlePrev == list {
      return null;
    }
    return list.idlePrev;
  }

  method IsEmpty(list: Node, ghost nodes: set<Node>, ghost h: Links, ghost q: seq<Node>) returns (empty: bool)
    requires Mirrors(nodes, h) && Ring(h, list, q)
    ensures empty <==> q == []
  {
    return list.idleNext == list;
  }

  method Remove(item: Node, ghost nodes: set<Node>, ghost h: Links)
    requires Mirrors(nodes, h) && Closed(h) && item in h
    modifies nodes
    ensures Mirrors(nodes, Removed(h, item))
  {
    if item.idleNext != null {
      item.idleNext.idlePrev := item.idlePrev;
    }
    if item.idlePrev != null {
      item.idlePrev.idleNext := item.idleNext;
    }
    item.idleNext := null;
    item.idlePrev := null;
  }

  /** Taking an item out of its list, if it is on one, and linking it in at the end of a list. */
  method Append(list: Node, item: Node, ghost nodes: set<Node>, ghost h: Links)
    requires Mirrors(nodes, h) && Closed(h) && list in h && item in h && list != item
    requires Removed(h, item)[list].next != null
    modifies nodes
    ensures Removed(h, item)[list].next in Removed(h, item)
    ensures Mirrors(nodes, Inserted(Removed(h, item), list, item))
  {
    hide Mirrors, Removed, Inserted;
    RemovedClosed(h, item);
    Remove(item, nodes, h);
    Insert(list, item, nodes, Removed(h, item));
  }

  /** Linking an item in at the end of a list: the second half of append. */
  method Insert(list: Node, item: Node, ghost nodes: set<Node>, ghost h: Links)
    requires Mirrors(nodes, h) && Closed(h) && list in h && item in h && list != item && h[list].next != null
    modifies nodes
    ensures h[list].next in h && Mirrors(nodes, Inserted(h, list, item))
  {
    item.idleNext := list.idleNext;
    list.idleNext.idlePrev := item;
    item.idlePrev := list;
    list.idleNext := item;
  }

  /** Taking out the most idle item of a list. */
  method Shift(list: Node, ghost nodes: set<Node>, ghost h: Links, ghost q: seq<Node>) returns (first: Node)
    requires Mirrors(nodes, h) && Closed(h) && Ring(h, list, q) && q != []
    modifies nodes
    ensures first == q[0] && first in h && Mirrors(nodes, Removed(h, first))
  {
    Members(h, list, q);
    first := list.idlePrev;
    Remove(first, nodes, h);
  }
}
