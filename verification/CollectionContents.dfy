/** What the collection holds after each operation, and which objects a query finds in it, property by property. */
module CollectionContents {
  import opened Results
  import opened CollectionIndex

  // ---------- what is stored ----------

  /** Only the object stored under one id may have changed. */
  ghost predicate OnlyId(s: Store, t: Store, id: int) {
    t.data.Keys == s.data.Keys + {id} && forall other :: other in s.data && other != id ==> t.data[other] == s.data[other]
  }

  /**
   * The object at id has every property of o with its value; what else was there is kept if the store merges, and gone if it replaces.
   */
  ghost predicate Holds(s: Store, t: Store, id: int, o: Object) {
    && id in t.data
    && (forall f :: f in o ==> f in t.data[id] && t.data[id][f] == o[f])
    && (forall f :: f in t.data[id] && f !in o ==> s.merges && id in s.data && f in s.data[id] && t.data[id][f] == s.data[id][f])
    && (forall f :: s.merges && id in s.data && f in s.data[id] ==> f in t.data[id])
  }

  /** An entry of the new index is an old one, or one of an indexed property of the object. */
  ghost predicate Entered(s: Store, t: Store, id: int, o: Object) {
    forall f, v, k :: (f, v, k) in t.index <==> (f, v, k) in s.index || (f in s.indexes && f in o && v == o[f] && k == id)
  }

  /** save of an object that has an id puts its properties into the object of that id. */
  lemma SaveStores(s: Store, o: Object)
    requires "__ID" in o
    ensures var t := Save(s, o);
      && OnlyId(s, t, o["__ID"]) && Holds(s, t, o["__ID"], o) && Entered(s, t, o["__ID"], o)
      && t.count == s.count && t.indexes == s.indexes && t.merges == s.merges
  {
    assert |o| > 0;
  }

  /** add, and save of an object without one, do that under the next id, which becomes a property of the object. */
  lemma AddStores(s: Store, o: Object)
    ensures var t, id, o1 := Add(s, o), s.count + 1, o["__ID" := s.count + 1];
      && OnlyId(s, t, id) && Holds(s, t, id, o1) && Entered(s, t, id, o1)
      && t.count == id && t.indexes == s.indexes && t.merges == s.merges
    ensures |o| > 0 && "__ID" !in o ==> Save(s, o) == Add(s, o)
    ensures o == map[] ==> Save(s, o) == s
  {
  }

  /** remove takes the object of that id out, and its entries as they are passed; without an object, everything but the index. */
  lemma RemoveTakesOut(s: Store, o: Object)
    ensures "__ID" !in o ==> Remove(s, Some(o)) == Err(Unformatted)
    ensures "__ID" in o ==>
      && Remove(s, Some(o)).Ok?
      && var t, id := Remove(s, Some(o)).value, o["__ID"];
         && t.data.Keys == s.data.Keys - {id} && (forall other :: other in t.data ==> t.data[other] == s.data[other])
         && (forall f, v, k :: (f, v, k) in t.index <==> (f, v, k) in s.index && !(f in s.indexes && f in o && v == o[f] && k == id))
         && t.count == s.count && t.indexes == s.indexes && t.merges == s.merges
    ensures Remove(s, None) == Ok(Store(s.merges, 0, map[], s.indexes, s.index))
  {
  }

  /** ensureIndex adds the property to those indexed, once, and no entry. */
  lemma EnsureIndexAdds(s: Store, f: string)
    ensures var t := EnsureIndex(s, f);
      && (forall g :: g in t.indexes <==> g in s.indexes || g == f) && (f in s.indexes ==> t == s)
      && t == Store(s.merges, s.count, s.data, t.indexes, s.index)
  {
  }

  lemma {:induction false} InAllEntries(indexes: seq<string>, rows: seq<Object>, e: Entry)
    ensures e in AllEntries(indexes, rows) <==> exists i :: 0 <= i < |rows| && "__ID" in rows[i] && e in Entries(indexes, rows[i])
  {
    hide Entries;
    if rows != [] {
      var front := rows[..|rows| - 1];
      InAllEntries(indexes, front, e);
      if exists i :: 0 <= i < |rows| && "__ID" in rows[i] && e in Entries(indexes, rows[i]) {
        var i :| 0 <= i < |rows| && "__ID" in rows[i] && e in Entries(indexes, rows[i]);
        assert i < |front| ==> front[i] == rows[i];
      }
    }
  }

  /** The entry is one of an indexed property of an object with this id property. */
  predicate EntryOf(indexes: seq<string>, o: Object, e: Entry) {
    "__ID" in o && e.2 == o["__ID"] && e.0 in indexes && e.0 in o && e.1 == o[e.0]
  }

  /** reIndex adds the entries of the objects, and no others. */
  lemma ReIndexEnters(s: Store, e: Entry)
    ensures e in ReIndex(s).index <==> e in s.index || exists id :: id in s.data && id > 0 && EntryOf(s.indexes, s.data[id], e)
    ensures ReIndex(s) == Store(s.merges, s.count, s.data, s.indexes, ReIndex(s).index)
  {
    hide AllEntries, AllRows, Entries;
    var ids := ScanRows(s);
    InAllEntries(s.indexes, AllRows(s), e);
    forall o: Object | "__ID" in o ensures e in Entries(s.indexes, o) <==> EntryOf(s.indexes, o, e) {
      EntriesAre(s.indexes, o, e);
    }
    if exists id :: id in s.data && id > 0 && EntryOf(s.indexes, s.data[id], e) {
      var id :| id in s.data && id > 0 && EntryOf(s.indexes, s.data[id], e);
      var k :| 0 <= k < |ids| && ids[k] == id;
      assert AllRows(s)[k] == s.data[id];
    }
  }

  lemma EntriesAre(indexes: seq<string>, o: Object, e: Entry)
    requires "__ID" in o
    ensures e in Entries(indexes, o) <==> EntryOf(indexes, o, e)
  {
  }

  // ---------- what a query selects ----------

  lemma {:induction false} InFilter(rows: seq<Object>, q: Query, o: Object)
    ensures o in Filter(rows, q) <==> o in rows && Selects(q, o)
  {
    hide Selects;
    if rows != [] {
      InFilter(rows[..|rows| - 1], q, o);
    }
  }

  /** What is selected is selected each time, and in the order of the rows. */
  lemma {:induction false} FilterParts(a: seq<Object>, b: seq<Object>, q: Query)
    ensures Filter(a + b, q) == Filter(a, q) + Filter(b, q)
  {
    hide Selects;
    if b == [] {
      assert a + b == a && Filter(a, q) + [] == Filter(a, q);
    } else {
      var front, last := b[..|b| - 1], b[|b| - 1];
      assert (a + b)[..|a + b| - 1] == a + front && (a + b)[|a + b| - 1] == last;
      FilterParts(a, front, q);
      assert Filter(a, q) + (Filter(front, q) + [last]) == Filter(a, q) + Filter(front, q) + [last];
    }
  }

  /** The rows that one clause selects, by its operator. */
  lemma Comparisons(rows: seq<Object>, p: string, value: int, o: Object)
    ensures o in Filter(rows, One(Clause(p, Bare(value)))) <==> o in rows && p in o && o[p] == value
    ensures o in Filter(rows, One(Clause(p, Explicit(Eq, value)))) <==> o in rows && p in o && o[p] == value
    ensures o in Filter(rows, One(Clause(p, Explicit(Nq, value)))) <==> o in rows && p in o && o[p] != value
    ensures o in Filter(rows, One(Clause(p, Explicit(Lt, value)))) <==> o in rows && p in o && o[p] < value
    ensures o in Filter(rows, One(Clause(p, Explicit(Lte, value)))) <==> o in rows && p in o && o[p] <= value
    ensures o in Filter(rows, One(Clause(p, Explicit(Gt, value)))) <==> o in rows && p in o && o[p] > value
    ensures o in Filter(rows, One(Clause(p, Explicit(Gte, value)))) <==> o in rows && p in o && o[p] >= value
  {
    InFilter(rows, One(Clause(p, Bare(value))), o);
    InFilter(rows, One(Clause(p, Explicit(Eq, value))), o);
    InFilter(rows, One(Clause(p, Explicit(Nq, value))), o);
    InFilter(rows, One(Clause(p, Explicit(Lt, value))), o);
    InFilter(rows, One(Clause(p, Explicit(Lte, value))), o);
    InFilter(rows, One(Clause(p, Explicit(Gt, value))), o);
    InFilter(rows, One(Clause(p, Explicit(Gte, value))), o);
  }

  lemma {:induction false} InSayings(clauses: seq<Clause>, o: Object, b: bool)
    ensures b in Sayings(clauses, o) <==> exists k :: 0 <= k < |clauses| && Says(clauses[k], o) == Some(b)
  {
    hide Says;
    if clauses != [] {
      var front := clauses[..|clauses| - 1];
      InSayings(front, o, b);
      if exists k :: 0 <= k < |clauses| && Says(clauses[k], o) == Some(b) {
        var k :| 0 <= k < |clauses| && Says(clauses[k], o) == Some(b);
        assert k < |front| ==> front[k] == clauses[k];
      }
    }
  }

  /** The clause alone selects the row. */
  predicate Alone(clause: Clause, o: Object) {
    Filter([o], One(clause)) == [o]
  }

  lemma AloneIs(clause: Clause, o: Object)
    ensures Alone(clause, o) <==> Says(clause, o) == Some(true)
  {
    assert [o][..0] == [] && Filter([], One(clause)) == [] && [] + [o] == [o];
  }

  /** Of several clauses, those count whose property the row has: with `or` one of them has to select it, with `and` all, and some. */
  lemma Joiners(rows: seq<Object>, clauses: seq<Clause>, o: Object)
    ensures o in Filter(rows, AnyOf(clauses)) <==> o in rows && exists k :: 0 <= k < |clauses| && Alone(clauses[k], o)
    ensures o in Filter(rows, All(clauses)) <==>
      && o in rows && (exists k :: 0 <= k < |clauses| && clauses[k].prop in o)
      && forall k :: 0 <= k < |clauses| && clauses[k].prop in o ==> Alone(clauses[k], o)
  {
    hide Says, Alone, Sayings;
    InFilter(rows, AnyOf(clauses), o);
    InFilter(rows, All(clauses), o);
    InSayings(clauses, o, true);
    InSayings(clauses, o, false);
    forall k | 0 <= k < |clauses| ensures Alone(clauses[k], o) <==> Says(clauses[k], o) == Some(true) {
      AloneIs(clauses[k], o);
    }
    forall k | 0 <= k < |clauses|
      ensures clauses[k].prop in o <==> Says(clauses[k], o) == Some(true) || Says(clauses[k], o) == Some(false)
    {
      SaysOf(clauses[k], o);
    }
    var said := Sayings(clauses, o);
    if said != [] {
      assert said[0] in said && (said[0] == true || said[0] == false);
    }
  }

  lemma SaysOf(clause: Clause, o: Object)
    ensures clause.prop in o <==> Says(clause, o) == Some(true) || Says(clause, o) == Some(false)
  {
  }

  // ---------- what a scan looks at ----------

  /** Every object with a positive id, each once, by increasing id. */
  lemma ScanRows(s: Store) returns (ids: seq<int>)
    ensures |AllRows(s)| == |ids|
    ensures forall k :: 0 <= k < |ids| ==> ids[k] in s.data && ids[k] > 0 && AllRows(s)[k] == s.data[ids[k]]
    ensures forall i, j :: 0 <= i < j < |ids| ==> ids[i] < ids[j]
    ensures forall id :: id in s.data && id > 0 ==> id in ids
  {
    ids := ListOf(s.data.Keys, 0);
    RowsLength(s, ids);
    forall k | 0 <= k < |ids| ensures ids[k] in s.data && ids[k] > 0 && AllRows(s)[k] == s.data[ids[k]] {
      assert ids[k] in ids;
      RowsHaveIds(s, ids, k);
    }
    IncreasingIs(ids, 0);
  }

  lemma {:induction false} IncreasingIs(s: seq<int>, after: int)
    requires Increasing(s, after)
    ensures forall i, j :: 0 <= i < j < |s| ==> s[i] < s[j]
  {
    if s != [] {
      IncreasingIs(s[1..], s[0]);
      forall i, j | 0 <= i < j < |s| ensures s[i] < s[j] {
        if i == 0 {
          IncreasingFrom(s[1..], s[0], j - 1);
        } else {
          assert s[i] == s[1..][i - 1] && s[j] == s[1..][j - 1];
        }
      }
    }
  }
}
