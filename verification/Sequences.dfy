/** Sequences without repetitions, and taking an element out: what splice at an indexOf makes of a list. */
module Sequences {

  predicate Unique<T(==)>(q: seq<T>) {
    forall i, j :: 0 <= i < j < |q| ==> q[i] != q[j]
  }

  function Without<T>(r: seq<T>, k: nat): seq<T>
    requires k < |r|
  {
    r[..k] + r[k + 1..]
  }

  function IndexOf<T(==)>(s: seq<T>, x: T): (k: nat)
    requires x in s
    ensures k < |s| && s[k] == x
  {
    if s[0] == x then 0 else IndexOf(s[1..], x) + 1
  }

  /** s with its first x taken out, if it has one. */
  function Minus<T(==)>(s: seq<T>, x: T): seq<T> {
    if x in s then Without(s, IndexOf(s, x)) else s
  }

  lemma WithoutFacts<T>(q: seq<T>, k: nat)
    requires Unique(q) && k < |q|
    ensures Unique(Without(q, k)) && q[k] !in Without(q, k)
    ensures forall j :: 0 <= j < |Without(q, k)| ==> Without(q, k)[j] in q
  {
    var w := Without(q, k);
    assert forall j :: 0 <= j < |w| ==> w[j] == q[if j < k then j else j + 1];
  }

  lemma MinusFacts<T>(q: seq<T>, x: T)
    requires Unique(q)
    ensures Unique(Minus(q, x)) && x !in Minus(q, x)
    ensures x !in q ==> Minus(q, x) == q
    ensures forall k :: 0 <= k < |Minus(q, x)| ==> Minus(q, x)[k] in q
  {
    hide Unique, Without;
    if x in q {
      WithoutFacts(q, IndexOf(q, x));
    }
  }

  /** Nothing else is lost, and nothing is gained. */
  lemma MinusIs<T>(q: seq<T>, x: T)
    ensures x !in q ==> Minus(q, x) == q
    ensures forall y :: y in Minus(q, x) ==> y in q
    ensures forall y :: y != x ==> (y in Minus(q, x) <==> y in q)
  {
    if x in q {
      var k := IndexOf(q, x);
      forall y | y in q && y != x ensures y in Without(q, k) {
        var j :| 0 <= j < |q| && q[j] == y;
        assert Without(q, k)[if j < k then j else j - 1] == y;
      }
    }
  }

  lemma MinusFirst<T>(q: seq<T>)
    requires q != []
    ensures Minus(q, q[0]) == q[1..]
  {
  }

  /** The first occurrence of x is at k. */
  lemma {:induction false} FirstIndex<T>(s: seq<T>, x: T, k: nat)
    requires k < |s| && s[k] == x && forall i :: 0 <= i < k ==> s[i] != x
    ensures x in s && IndexOf(s, x) == k
  {
    if k > 0 {
      FirstIndex(s[1..], x, k - 1);
    }
  }
}
