/** A collection of the driver: objects in a sorted store, an index beside it, and finding objects with and without the index. */
module CollectionIndex {
  import opened Results

  /** The properties of an object. An object that does not exist is retrieved as one without properties. */
  type Object = map<string, int>

  const ID := "__ID"

  // ---------- the store ----------

  /** The next subscript after one, in collation order. */
  ghost predicate IsNext(ids: set<int>, after: int, next: int) {
    next in ids && next > after && forall id :: id in ids && id > after ==> next <= id
  }

  predicate Any(ids: set<int>, after: int) {
    exists id :: id in ids && id > after
  }

  lemma {:induction false} LeastExists(ids: set<int>, after: int) returns (next: int)
    requires Any(ids, after)
    ensures IsNext(ids, after, next)
    decreases |ids|
  {
    var id :| id in ids && id > after;
    if Any(ids - {id}, after) {
      var other := LeastExists(ids - {id}, after);
      next := if id < other then id else other;
      forall x | x in ids && x > after ensures next <= x {
        assert x == id || x in ids - {id};
      }
    } else {
      next := id;
      forall x | x in ids && x > after ensures next <= x {
        assert x == id || x in ids - {id};
      }
    }
  }

  lemma HasLeast(ids: set<int>, after: int)
    requires Any(ids, after)
    ensures exists next :: IsNext(ids, after, next)
  {
    var next := LeastExists(ids, after);
  }

  /** order: the next subscript, if there is one. */
  method Order(ids: set<int>, after: int) returns (next: Option<int>)
    ensures if Any(ids, after) then next.Some? && IsNext(ids, after, next.value) else next == None
  {
    if Any(ids, after) {
      var least := LeastExists(ids, after);
      var id :| id in ids && id > after && forall other :: other in ids && other > after ==> id <= other;
      return Some(id);
    }
    return None;
  }

  predicate Increasing(s: seq<int>, after: int) {
    s == [] || (s[0] > after && Increasing(s[1..], s[0]))
  }

  /** s lists the subscripts after one, in order. */
  ghost predicate Lists(s: seq<int>, ids: set<int>, after: int) {
    Increasing(s, after) && forall id :: id in s <==> id in ids && id > after
  }

  lemma {:induction false} IncreasingFrom(s: seq<int>, after: int, k: nat)
    requires Increasing(s, after) && k < |s|
    ensures s[k] > after
  {
    if k > 0 {
      IncreasingFrom(s[1..], s[0], k - 1);
    }
  }

  /** There is one list of a set. */
  lemma {:induction false} ListsUnique(s: seq<int>, t: seq<int>, ids: set<int>, after: int)
    requires Lists(s, ids, after) && Lists(t, ids, after)
    ensures s == t
  {
    if s != [] {
      SomeToo(s, t);
    }
    if t != [] {
      SomeToo(t, s);
    }
    if s != [] && t != [] {
      HeadIsLeast(s, ids, after);
      HeadIsLeast(t, ids, after);
      assert s[0] in t && t[0] in s;
      ListsTail(s, ids, after);
      ListsTail(t, ids, after);
      ListsUnique(s[1..], t[1..], ids, s[0]);
    }
  }

  lemma SomeToo(s: seq<int>, t: seq<int>)
    requires s != [] && forall id :: id in s <==> id in t
    ensures t != []
  {
    var id := s[0];
    assert id in s;
    assert id in t;
  }

  lemma HeadIsLeast(s: seq<int>, ids: set<int>, after: int)
    requires Lists(s, ids, after) && s != []
    ensures forall id :: id in s ==> s[0] <= id
  {
    forall id | id in s ensures s[0] <= id {
      var k :| 0 <= k < |s| && s[k] == id;
      if k > 0 {
        IncreasingFrom(s[1..], s[0], k - 1);
      }
    }
  }

  lemma ListsTail(s: seq<int>, ids: set<int>, after: int)
    requires Lists(s, ids, after) && s != []
    ensures Lists(s[1..], ids, s[0])
  {
    HeadIsLeast(s, ids, after);
    forall id ensures id in s[1..] <==> id in ids && id > s[0] {
      if id in s[1..] {
        var k :| 0 <= k < |s[1..]| && s[1..][k] == id;
        IncreasingFrom(s[1..], s[0], k);
      }
      if id in ids && id > s[0] {
        assert id in s;
        var k :| 0 <= k < |s| && s[k] == id;
        assert s[1..][k - 1] == id;
      }
    }
  }

  function Above(ids: set<int>, after: int): set<int> {
    set id | id in ids && id > after
  }

  /** The subscripts after one, in order. */
  ghost function ListOf(ids: set<int>, after: int): (s: seq<int>)
    ensures Lists(s, ids, after)
    decreases |Above(ids, after)|
  {
    if !Any(ids, after) then []
    else
      var next := Least(ids, after);
      Shrinks(ids, after, next);
      var rest := ListOf(ids, next);
      ListsCons(ids, after, next, rest);
      [next] + rest
  }

  ghost function Least(ids: set<int>, after: int): (next: int)
    requires Any(ids, after)
    ensures IsNext(ids, after, next)
  {
    HasLeast(ids, after);
    var next :| IsNext(ids, after, next);
    next
  }

  lemma Shrinks(ids: set<int>, after: int, next: int)
    requires next in ids && next > after
    ensures |Above(ids, next)| < |Above(ids, after)|
  {
    assert Above(ids, next) <= Above(ids, after) - {next};
    Smaller(Above(ids, next), Above(ids, after) - {next});
  }

  lemma Smaller(a: set<int>, b: set<int>)
    requires a <= b
    ensures |a| <= |b|
  {
    assert a + (b - a) == b && a * (b - a) == {};
  }

  lemma ListsCons(ids: set<int>, after: int, next: int, rest: seq<int>)
    requires IsNext(ids, after, next) && Lists(rest, ids, next)
    ensures Lists([next] + rest, ids, after)
  {
    var s := [next] + rest;
    assert s[1..] == rest;
    forall id ensures id in s <==> id in ids && id > after {
      assert id in s <==> id == next || id in rest;
    }
  }

  lemma ListEnds(ids: set<int>, after: int)
    requires !Any(ids, after)
    ensures ListOf(ids, after) == []
  {
  }

  /** One more of a list. */
  lemma Listed(all: seq<int>, front: seq<int>, next: int, rest: seq<int>)
    requires front + ([next] + rest) == all
    ensures (front + [next]) + rest == all
  {
  }

  lemma ListUnfolds(ids: set<int>, after: int, next: int)
    requires IsNext(ids, after, next)
    ensures ListOf(ids, after) == [next] + ListOf(ids, next)
  {
  }

  lemma Advance(ids: set<int>, after: int, next: int)
    requires IsNext(ids, after, next)
    ensures ListOf(ids, after) == [next] + ListOf(ids, next) && |Above(ids, next)| < |Above(ids, after)|
  {
    ListUnfolds(ids, after, next);
    Shrinks(ids, after, next);
  }

  // ---------- queries ----------

  datatype Operator = Eq | Nq | Lt | Lte | Gt | Gte

  /** A value that is to be equalled, or an object with an operator and a value. */
  datatype Expression = Bare(value: int) | Explicit(operator: Operator, value: int) {
    function Means(): Operator {
      if this.Bare? then Eq else operator
    }

    predicate Evaluate(v: int) {
      match Means()
      case Eq => v == value
      case Nq => v != value
      case Lt => v < value
      case Lte => v <= value
      case Gt => v > value
      case Gte => v >= value
    }
  }

  datatype Clause = Clause(prop: string, expression: Expression)

  /** One clause, or several and how to join them. */
  datatype Query = One(clause: Clause) | All(clauses: seq<Clause>) | AnyOf(clauses: seq<Clause>)

  /** What a clause says of an object; nothing, of one without the property. */
  function Says(clause: Clause, o: Object): Option<bool> {
    if clause.prop in o then Some(clause.expression.Evaluate(o[clause.prop])) else None
  }

  /** What the clauses say that say anything. */
  function Sayings(clauses: seq<Clause>, o: Object): seq<bool> {
    if clauses == [] then []
    else
      var rest := Sayings(clauses[..|clauses| - 1], o);
      match Says(clauses[|clauses| - 1], o)
      case None => rest
      case Some(b) => rest + [b]
  }

  /** An object without any of the properties is never selected; a clause on a property it lacks does not count. */
  predicate Selects(q: Query, o: Object) {
    match q
    case One(clause) => Says(clause, o) == Some(true)
    case All(clauses) => Sayings(clauses, o) != [] && false !in Sayings(clauses, o)
    case AnyOf(clauses) => true in Sayings(clauses, o)
  }

  function Filter(rows: seq<Object>, q: Query): seq<Object> {
    if rows == [] then []
    else
      var rest := Filter(rows[..|rows| - 1], q);
      if Selects(q, rows[|rows| - 1]) then rest + [rows[|rows| - 1]] else rest
  }

  /** Evaluates the clauses one after the other, and joins the results. */
  method Execute(q: Query, rows: seq<Object>) returns (results: seq<Object>)
    ensures results == Filter(rows, q)
  {
    results := [];
    var stack := if q.One? then [q.clause] else q.clauses;
    for i := 0 to |rows|
      invariant results == Filter(rows[..i], q)
    {
      var row := rows[i];
      var evalResults: seq<bool> := [];
      for j := 0 to |stack|
        invariant evalResults == Sayings(stack[..j], row)
      {
        var clause := stack[j];
        assert stack[..j + 1][..j] == stack[..j];
        if clause.prop !in row {
          continue;
        }
        evalResults := evalResults + [clause.expression.Evaluate(row[clause.prop])];
      }
      assert stack[..|stack|] == stack;
      assert rows[..i + 1][..i] == rows[..i];
      var addRow;
      if q.One? {
        SayingsOne(q.clause, row);
        addRow := |evalResults| > 0 && evalResults[0];
      } else {
        addRow := Joined(evalResults, q.All?);
      }
      if addRow {
        results := results + [row];
      }
    }
    assert rows[..|rows|] == rows;
  }

  lemma SayingsOne(clause: Clause, o: Object)
    ensures Sayings([clause], o) == if Says(clause, o).Some? then [Says(clause, o).value] else []
  {
    assert [clause][..0] == [];
  }

  /** The value of the results with the joiner between them; of none, nothing true. */
  method Joined(evalResults: seq<bool>, all: bool) returns (r: bool)
    ensures r <==> if all then evalResults != [] && false !in evalResults else true in evalResults
  {
    if |evalResults| == 0 {
      return false;
    }
    r := evalResults[0];
    for k := 1 to |evalResults|
      invariant r <==> if all then false !in evalResults[..k] else true in evalResults[..k]
    {
      r := if all then r && evalResults[k] else r || evalResults[k];
    }
    assert evalResults[..|evalResults|] == evalResults;
  }

  // ---------- the collection ----------

  /** Property, value and id of what an index entry stands for. */
  type Entry = (string, int, int)

  /**
   * The objects by id, the count the next id comes from, the properties that are indexed, and the index. Whether updating keeps
   * the properties that the new object does not have is the store's choice.
   */
  datatype Store = Store(merges: bool, count: int, data: map<int, Object>, indexes: seq<string>, index: set<Entry>)

  function Retrieve(s: Store, id: int): Object {
    if id in s.data then s.data[id] else map[]
  }

  function Update(s: Store, id: int, o: Object): Store {
    s.(data := s.data[id := if s.merges then Retrieve(s, id) + o else o])
  }

  /** The entries for an object. */
  function Entries(indexes: seq<string>, o: Object): set<Entry>
    requires ID in o
  {
    set f | f in indexes && f in o :: (f, o[f], o[ID])
  }

  function Add(s: Store, o: Object): Store {
    var id := s.count + 1;
    var o1 := o[ID := id];
    var s1 := Update(s.(count := id), id, o1);
    s1.(index := s1.index + Entries(s.indexes, o1))
  }

  function Save(s: Store, o: Object): Store {
    if |o| == 0 then s
    else if ID !in o then Add(s, o)
    else
      var s1 := Update(s, o[ID], o);
      s1.(index := s1.index + Entries(s.indexes, o))
  }

  datatype Error = Unformatted

  /** The entries of the object passed go, not those of the object stored. */
  function Remove(s: Store, o: Option<Object>): Result<Store, Error> {
    match o
    case None => Ok(s.(data := map[], count := 0))
    case Some(o) =>
      if ID !in o then Err(Unformatted)
      else Ok(s.(data := s.data - {o[ID]}, index := s.index - Entries(s.indexes, o)))
  }

  function EnsureIndex(s: Store, f: string): Store {
    if f in s.indexes then s else s.(indexes := s.indexes + [f])
  }

  function Rows(s: Store, ids: seq<int>): seq<Object> {
    if ids == [] then [] else Rows(s, ids[..|ids| - 1]) + [Retrieve(s, ids[|ids| - 1])]
  }

  /** Every object, in order of its id. */
  ghost function AllRows(s: Store): seq<Object> {
    Rows(s, ListOf(s.data.Keys, 0))
  }

  function AllEntries(indexes: seq<string>, rows: seq<Object>): set<Entry> {
    if rows == [] then {}
    else
      var last := rows[|rows| - 1];
      AllEntries(indexes, rows[..|rows| - 1]) + if ID in last then Entries(indexes, last) else {}
  }

  ghost function ReIndex(s: Store): Store {
    s.(index := s.index + AllEntries(s.indexes, AllRows(s)))
  }

  /** The ids under which an index has a value. */
  function Hits(s: Store, f: string, v: int): set<int> {
    set e | e in s.index && e.0 == f && e.1 == v :: e.2
  }

  /** What an index has under what the query says; an object with an operator is looked up as it is, and is nobody's value. */
  function Lookup(s: Store, clause: Clause): set<int> {
    match clause.expression
    case Bare(v) => Hits(s, clause.prop, v)
    case Explicit(_, _) => {}
  }

  ghost function Scan(s: Store, q: Query): seq<Object> {
    Filter(AllRows(s), q)
  }

  predicate UsesIndex(s: Store, q: Query) {
    q.One? && q.clause.prop in s.indexes
  }

  /** Through the index where there is one; and if it has no such value, as without. */
  ghost function Find(s: Store, q: Query): seq<Object> {
    if !UsesIndex(s, q) then Scan(s, q)
    else
      var ids := ListOf(Lookup(s, q.clause), 0);
      if ids == [] then Scan(s, q) else Filter(Rows(s, ids), q)
  }

  // ---------- what the index is good for ----------

  /** Every object has the id it is stored under. */
  ghost predicate Identified(s: Store) {
    forall id :: id in s.data ==> ID in s.data[id] && s.data[id][ID] == id
  }

  /** Every object that find looks at, and that has the property, is in the index under its value; other entries may be stale. */
  ghost predicate Indexed(s: Store, f: string) {
    forall id :: id in s.data && id > 0 && f in s.data[id] ==> (f, s.data[id][f], id) in s.index
  }

  ghost predicate AllIndexed(s: Store) {
    Identified(s) && forall f :: f in s.indexes ==> Indexed(s, f)
  }

  function Equals(f: string, v: int): Query {
    One(Clause(f, Bare(v)))
  }

  /** The ids whose objects a query selects. */
  function Selected(s: Store, ids: seq<int>, q: Query): seq<int> {
    if ids == [] then []
    else if Selects(q, Retrieve(s, ids[0])) then [ids[0]] + Selected(s, ids[1..], q)
    else Selected(s, ids[1..], q)
  }

  lemma {:induction false} RowsCons(s: Store, id: int, ids: seq<int>)
    ensures Rows(s, [id] + ids) == [Retrieve(s, id)] + Rows(s, ids)
  {
    if ids == [] {
      assert [id] + ids == [id] && [id][..0] == [];
    } else {
      var front, last := ids[..|ids| - 1], ids[|ids| - 1];
      assert ([id] + ids)[..|ids|] == [id] + front;
      RowsCons(s, id, front);
    }
  }

  lemma {:induction false} FilterCons(o: Object, rows: seq<Object>, q: Query)
    ensures Filter([o] + rows, q) == (if Selects(q, o) then [o] else []) + Filter(rows, q)
  {
    if rows == [] {
      assert [o] + rows == [o] && [o][..0] == [];
    } else {
      assert ([o] + rows)[..|rows|] == [o] + rows[..|rows| - 1];
      FilterCons(o, rows[..|rows| - 1], q);
    }
  }

  lemma {:induction false} FilterRows(s: Store, ids: seq<int>, q: Query)
    ensures Filter(Rows(s, ids), q) == Rows(s, Selected(s, ids, q))
  {
    if ids != [] {
      FilterRows(s, ids[1..], q);
      RowsCons(s, ids[0], ids[1..]);
      FilterCons(Retrieve(s, ids[0]), Rows(s, ids[1..]), q);
      RowsCons(s, ids[0], Selected(s, ids[1..], q));
      assert [ids[0]] + ids[1..] == ids;
    }
  }

  lemma {:induction false} SelectedLists(s: Store, ids: seq<int>, q: Query, after: int)
    requires Increasing(ids, after)
    ensures Increasing(Selected(s, ids, q), after)
    ensures forall id :: id in Selected(s, ids, q) <==> id in ids && Selects(q, Retrieve(s, id))
  {
    if ids != [] {
      SelectedLists(s, ids[1..], q, ids[0]);
      Weaken(Selected(s, ids[1..], q), ids[0], after);
    }
  }

  lemma Weaken(s: seq<int>, from: int, after: int)
    requires Increasing(s, from) && after <= from
    ensures Increasing(s, after)
  {
  }

  /** What two lists of ids select is the same when they select the same ids. */
  lemma SameSelection(s: Store, a: seq<int>, b: seq<int>, q: Query)
    requires Increasing(a, 0) && Increasing(b, 0)
    requires forall id :: Selects(q, Retrieve(s, id)) ==> (id in a <==> id in b)
    ensures Filter(Rows(s, a), q) == Filter(Rows(s, b), q)
  {
    FilterRows(s, a, q);
    FilterRows(s, b, q);
    SelectedLists(s, a, q, 0);
    SelectedLists(s, b, q, 0);
    var x, y := Selected(s, a, q), Selected(s, b, q);
    hide Selects;
    var ids := set id | id in x;
    forall id | id in x ensures id > 0 {
      var k :| 0 <= k < |x| && x[k] == id;
      IncreasingFrom(x, 0, k);
    }
    ListsUnique(x, y, ids, 0);
  }

  /** Every object with this value is in the index, or none is. */
  ghost predicate IndexedFor(s: Store, f: string, v: int) {
    || ListOf(Hits(s, f, v), 0) == []
    || forall id :: id in s.data && id > 0 && f in s.data[id] && s.data[id][f] == v ==> (f, v, id) in s.index
  }

  /** A query with an operator, be it that of equality, finds what a scan does, whatever the index has. */
  lemma FindExplicit(s: Store, f: string, operator: Operator, v: int)
    ensures var q := One(Clause(f, Explicit(operator, v))); Find(s, q) == Scan(s, q)
  {
    ListEnds({}, 0);
  }

  /** Through the index the same objects are found, in the same order, as by looking at all of them. */
  lemma FindIsScan(s: Store, f: string, v: int)
    requires f in s.indexes && IndexedFor(s, f, v)
    ensures Find(s, Equals(f, v)) == Scan(s, Equals(f, v))
  {
    var q, hits := Equals(f, v), Hits(s, f, v);
    if ListOf(hits, 0) != [] {
      forall id | Selects(q, Retrieve(s, id)) ensures id in ListOf(hits, 0) <==> id in ListOf(s.data.Keys, 0) {
        assert id in s.data && f in s.data[id] && s.data[id][f] == v;
        if id > 0 {
          assert (f, v, id) in s.index;
          assert id in hits;
        }
      }
      SameSelection(s, ListOf(hits, 0), ListOf(s.data.Keys, 0), q);
    }
  }

  lemma {:induction false} RowsHaveIds(s: Store, ids: seq<int>, k: nat)
    requires k < |ids|
    ensures |Rows(s, ids)| == |ids| && Rows(s, ids)[k] == Retrieve(s, ids[k])
  {
    if k < |ids| - 1 {
      RowsHaveIds(s, ids[..|ids| - 1], k);
    } else if k > 0 {
      RowsHaveIds(s, ids[..|ids| - 1], k - 1);
    }
  }

  lemma {:induction false} RowsLength(s: Store, ids: seq<int>)
    ensures |Rows(s, ids)| == |ids|
  {
    if ids != [] {
      RowsLength(s, ids[..|ids| - 1]);
    }
  }

  /** Lists of objects that have their ids are equal only when the lists of ids are. */
  lemma SameRows(s: Store, x: seq<int>, y: seq<int>, k: nat)
    requires Identified(s) && Rows(s, x) == Rows(s, y) && k < |y| && y[k] in s.data
    requires forall id :: id in x ==> id in s.data
    ensures y[k] in x
  {
    RowsLength(s, x);
    RowsLength(s, y);
    RowsHaveIds(s, x, k);
    RowsHaveIds(s, y, k);
    assert x[k] in x;
    assert Retrieve(s, x[k]) == Retrieve(s, y[k]);
  }

  /** And only then: an index that has some of the objects with a value hides the others. */
  lemma FindIsScanOnlyIf(s: Store, f: string, v: int)
    requires f in s.indexes && Identified(s) && Find(s, Equals(f, v)) == Scan(s, Equals(f, v))
    ensures IndexedFor(s, f, v)
  {
    var q, hits := Equals(f, v), Hits(s, f, v);
    var a, b := ListOf(hits, 0), ListOf(s.data.Keys, 0);
    if a != [] {
      FilterRows(s, a, q);
      FilterRows(s, b, q);
      SelectedLists(s, a, q, 0);
      SelectedLists(s, b, q, 0);
      var x, y := Selected(s, a, q), Selected(s, b, q);
      assert Rows(s, x) == Rows(s, y);
      forall id | id in x ensures id in s.data {
        assert Selects(q, Retrieve(s, id));
      }
      forall id | id in s.data && id > 0 && f in s.data[id] && s.data[id][f] == v ensures (f, v, id) in s.index {
        assert id in b && Selects(q, Retrieve(s, id));
        var k :| 0 <= k < |y| && y[k] == id;
        hide Selects, Rows;
        SameRows(s, x, y, k);
        assert id in a;
      }
    }
  }

  // ---------- what keeps the index good ----------

  lemma UpdateIdentified(s: Store, id: int, o: Object)
    requires Identified(s) && ID in o && o[ID] == id
    ensures Identified(Update(s, id, o))
  {
  }

  /** An update that is indexed keeps what is indexed, also what the store kept of the object before. */
  lemma UpdateIndexed(s: Store, id: int, o: Object, f: string)
    requires Indexed(s, f) && f in s.indexes && ID in o && o[ID] == id
    ensures var s1 := Update(s, id, o);
      Indexed(s1.(index := s1.index + Entries(s.indexes, o)), f)
  {
    var s1 := Update(s, id, o);
    var s2 := s1.(index := s1.index + Entries(s.indexes, o));
    forall i | i in s2.data && i > 0 && f in s2.data[i] ensures (f, s2.data[i][f], i) in s2.index {
      if i == id && f in o {
        assert (f, o[f], o[ID]) in Entries(s.indexes, o);
      }
    }
  }

  lemma AddKeeps(s: Store, o: Object)
    requires AllIndexed(s)
    ensures AllIndexed(Add(s, o))
  {
    var id := s.count + 1;
    var o1, t := o[ID := id], s.(count := id);
    UpdateIdentified(t, id, o1);
    forall f | f in s.indexes ensures Indexed(Add(s, o), f) {
      assert Indexed(t, f);
      UpdateIndexed(t, id, o1, f);
    }
  }

  lemma SaveKeeps(s: Store, o: Object)
    requires AllIndexed(s)
    ensures AllIndexed(Save(s, o))
  {
    if |o| != 0 && ID !in o {
      AddKeeps(s, o);
    } else if |o| != 0 {
      UpdateIdentified(s, o[ID], o);
      forall f | f in s.indexes ensures Indexed(Save(s, o), f) {
        UpdateIndexed(s, o[ID], o, f);
      }
    }
  }

  lemma RemoveKeeps(s: Store, o: Option<Object>)
    requires AllIndexed(s) && Remove(s, o).Ok?
    ensures AllIndexed(Remove(s, o).value)
  {
    var t := Remove(s, o).value;
    forall f | f in t.indexes ensures Indexed(t, f) {
      assert Indexed(s, f);
    }
  }

  lemma {:induction false} EntriesOfRow(indexes: seq<string>, rows: seq<Object>, k: nat, f: string)
    requires k < |rows| && ID in rows[k] && f in indexes && f in rows[k]
    ensures (f, rows[k][f], rows[k][ID]) in AllEntries(indexes, rows)
  {
    if k < |rows| - 1 {
      EntriesOfRow(indexes, rows[..|rows| - 1], k, f);
    } else {
      assert (f, rows[k][f], rows[k][ID]) in Entries(indexes, rows[k]);
    }
  }

  /** Building the index anew makes it good, whatever was in it. */
  lemma ReIndexMakes(s: Store)
    requires Identified(s)
    ensures AllIndexed(ReIndex(s))
  {
    var t, ids := ReIndex(s), ListOf(s.data.Keys, 0);
    forall f | f in t.indexes ensures Indexed(t, f) {
      forall id | id in t.data && id > 0 && f in t.data[id] ensures (f, t.data[id][f], id) in t.index {
        assert id in ids;
        var k :| 0 <= k < |ids| && ids[k] == id;
        RowsHaveIds(s, ids, k);
        EntriesOfRow(s.indexes, AllRows(s), k, f);
      }
    }
  }

  lemma AllRowsIdentified(s: Store)
    requires Identified(s)
    ensures forall k :: 0 <= k < |AllRows(s)| ==> ID in AllRows(s)[k]
  {
    var ids := ListOf(s.data.Keys, 0);
    RowsLength(s, ids);
    forall k | 0 <= k < |AllRows(s)| ensures ID in AllRows(s)[k] {
      RowsHaveIds(s, ids, k);
      assert ids[k] in ids;
    }
  }

  // ---------- runs ----------

  datatype Operation = AddOp(o: Object) | SaveOp(o: Object) | RemoveOp(target: Option<Object>)

  /** An operation that throws changes nothing. */
  function Step(s: Store, op: Operation): Store {
    match op
    case AddOp(o) => Add(s, o)
    case SaveOp(o) => Save(s, o)
    case RemoveOp(o) =>
      match Remove(s, o)
      case Ok(t) => t
      case Err(_) => s
  }

  function Run(s: Store, ops: seq<Operation>): Store
    decreases |ops|
  {
    if ops == [] then s else Run(Step(s, ops[0]), ops[1..])
  }

  lemma {:induction false} RunKeeps(s: Store, ops: seq<Operation>)
    requires AllIndexed(s)
    ensures AllIndexed(Run(s, ops)) && Run(s, ops).indexes == s.indexes
    decreases |ops|
  {
    if ops != [] {
      match ops[0] {
        case AddOp(o) => AddKeeps(s, o);
        case SaveOp(o) => SaveKeeps(s, o);
        case RemoveOp(o) =>
          if Remove(s, o).Ok? {
            RemoveKeeps(s, o);
          }
      }
      RunKeeps(Step(s, ops[0]), ops[1..]);
    }
  }

  /**
   * Once an index has been ensured and built, and after any run of operations since, whatever entries they left behind, finding by
   * the indexed property is finding by a scan of all objects.
   */
  lemma FindAfterRun(s: Store, f: string, ops: seq<Operation>, e: Expression)
    requires Identified(s)
    ensures var t, q := Run(ReIndex(EnsureIndex(s, f)), ops), One(Clause(f, e));
      f in t.indexes && Find(t, q) == Scan(t, q)
  {
    var s1 := EnsureIndex(s, f);
    ReIndexMakes(s1);
    RunKeeps(ReIndex(s1), ops);
    var t := Run(ReIndex(s1), ops);
    match e
    case Bare(v) =>
      assert Indexed(t, f);
      FindIsScan(t, f, v);
    case Explicit(operator, v) =>
      FindExplicit(t, f, operator, v);
  }

  /** Two objects with a value, an index ensured and not built, the second object saved again: through the index the first is lost. */
  lemma UnbuiltIndexHides(merges: bool, f: string, v: int)
    requires f != ID
    ensures var o := map[f := v];
      var t := Save(EnsureIndex(Add(Add(Store(merges, 0, map[], [], {}), o), o), f), o[ID := 2]);
      Find(t, Equals(f, v)) != Scan(t, Equals(f, v))
  {
    var o := map[f := v];
    var s := Add(Add(Store(merges, 0, map[], [], {}), o), o);
    TwoObjects(merges, f, v, s);
    var t := Save(EnsureIndex(s, f), o[ID := 2]);
    SavedAgain(s, f, v, t);
    if Find(t, Equals(f, v)) == Scan(t, Equals(f, v)) {
      FindIsScanOnlyIf(t, f, v);
      FirstIsMissing(t, f, v);
    }
  }

  lemma FirstIsMissing(t: Store, f: string, v: int)
    requires t.index == {(f, v, 2)} && 1 in t.data && f in t.data[1] && t.data[1][f] == v && ListOf(Hits(t, f, v), 0) != []
    ensures !IndexedFor(t, f, v)
  {
    assert (f, v, 1) !in t.index;
  }

  /** Adding where nothing is indexed. */
  lemma AddUnindexed(s: Store, o: Object)
    requires s.indexes == [] && s.index == {} && s.count + 1 !in s.data
    ensures Add(s, o) == s.(count := s.count + 1, data := s.data[s.count + 1 := o[ID := s.count + 1]])
  {
    var o1 := o[ID := s.count + 1];
    assert Entries([], o1) == {};
    assert map[] + o1 == o1;
  }

  lemma TwoObjects(merges: bool, f: string, v: int, s: Store)
    requires f != ID && s == Add(Add(Store(merges, 0, map[], [], {}), map[f := v]), map[f := v])
    ensures s == Store(merges, 2, map[1 := map[f := v][ID := 1]][2 := map[f := v][ID := 2]], [], {})
  {
    AddUnindexed(Store(merges, 0, map[], [], {}), map[f := v]);
    AddUnindexed(Add(Store(merges, 0, map[], [], {}), map[f := v]), map[f := v]);
  }

  lemma SavedAgain(s: Store, f: string, v: int, t: Store)
    requires f != ID && s.indexes == [] && s.index == {} && t == Save(EnsureIndex(s, f), map[f := v][ID := 2])
    requires s.data == map[1 := map[f := v][ID := 1]][2 := map[f := v][ID := 2]]
    ensures f in t.indexes && Identified(t) && t.index == {(f, v, 2)} && 1 in t.data && t.data[1] == s.data[1]
    ensures ListOf(Hits(t, f, v), 0) != []
  {
    var o := map[f := v][ID := 2];
    assert ID in o && f in o && s.data[2] == o;
    assert [] + [f] == [f];
    EntriesOfOne(f, o);
    assert o + o == o;
    assert t.index == {(f, v, 2)};
    assert (f, v, 2) in t.index && (f, v, 2).2 in Hits(t, f, v);
  }

  lemma EntriesOfOne(f: string, o: Object)
    requires f in o && ID in o
    ensures Entries([f], o) == {(f, o[f], o[ID])}
  {
  }

  lemma EntriesMore(indexes: seq<string>, j: nat, o: Object)
    requires j < |indexes| && ID in o
    ensures Entries(indexes[..j + 1], o)
         == Entries(indexes[..j], o) + if indexes[j] in o then {(indexes[j], o[indexes[j]], o[ID])} else {}
  {
    assert indexes[..j + 1] == indexes[..j] + [indexes[j]];
  }
}
