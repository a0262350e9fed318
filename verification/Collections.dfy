/** The driver's collection, as an object held to the functions of CollectionIndex; the store is in memory. */
module Collections {
  import opened Results
  import S = CollectionIndex

  class Collection {
    const merges: bool
    var count: int
    var data: map<int, S.Object>
    var indexes: seq<string>
    var index: set<S.Entry>

    ghost function Value(): S.Store
      reads this
    {
      S.Store(merges, count, data, indexes, index)
    }

    constructor (merges: bool)
      ensures S.AllIndexed(Value()) && data == map[] && indexes == []
    {
      this.merges := merges;
      count, data, indexes, index := 0, map[], [], {};
    }

    /** cacheConnection.update, of one object. */
    method Update(id: int, o: S.Object)
      modifies this`data
      ensures Value() == S.Update(old(Value()), id, o)
    {
      var stored := if id in data then data[id] else map[];
      data := data[id := if merges then stored + o else o];
    }

    /** update_index: an entry for every indexed property that the object has. */
    method UpdateIndex(save: bool, o: S.Object)
      requires S.ID in o
      modifies this`index
      ensures index == if save then old(index) + S.Entries(indexes, o) else old(index) - S.Entries(indexes, o)
    {
      for j := 0 to |indexes|
        invariant index == if save then old(index) + S.Entries(indexes[..j], o) else old(index) - S.Entries(indexes[..j], o)
      {
        var key := indexes[j];
        S.EntriesMore(indexes, j, o);
        if key in o {
          index := if save then index + {(key, o[key], o[S.ID])} else index - {(key, o[key], o[S.ID])};
        }
      }
      assert indexes[..|indexes|] == indexes;
    }

    method Add(item: S.Object)
      modifies this`count, this`data, this`index
      ensures Value() == S.Add(old(Value()), item)
    {
      count := count + 1;
      var o := item[S.ID := count];
      Update(count, o);
      UpdateIndex(true, o);
    }

    /** saved: the object was not empty. */
    method Save(item: S.Object) returns (saved: bool)
      modifies this`count, this`data, this`index
      ensures Value() == S.Save(old(Value()), item) && (saved <==> |item| != 0)
    {
      if |item| == 0 {
        return false;
      }
      if S.ID !in item {
        Add(item);
        return true;
      }
      Update(item[S.ID], item);
      UpdateIndex(true, item);
      return true;
    }

    method Remove(item: Option<S.Object>) returns (r: Result<(), S.Error>)
      modifies this`count, this`data, this`index
      ensures match S.Remove(old(Value()), item)
              case Ok(t) => r == Ok(()) && Value() == t
              case Err(e) => r == Err(e) && Value() == old(Value())
    {
      if item == None {
        data, count := map[], 0;
        return Ok(());
      }
      var o := item.value;
      if S.ID !in o {
        return Err(S.Unformatted);
      }
      data := data - {o[S.ID]};
      UpdateIndex(false, o);
      return Ok(());
    }

    method EnsureIndex(field: string)
      modifies this`indexes
      ensures Value() == S.EnsureIndex(old(Value()), field)
    {
      for i := 0 to |indexes|
        invariant field !in indexes[..i] && indexes == old(indexes)
      {
        if indexes[i] == field {
          return;
        }
      }
      indexes := indexes + [field];
    }

    /** All subscripts from zero on, one order after the other. */
    method Ids(all: set<int>) returns (ids: seq<int>)
      ensures ids == S.ListOf(all, 0)
    {
      hide S.ListOf, S.Lists, S.Above, S.Any, S.IsNext;
      ids := [];
      var at := 0;
      assert [] + S.ListOf(all, 0) == S.ListOf(all, 0);
      while true
        invariant ids + S.ListOf(all, at) == S.ListOf(all, 0)
        decreases |S.Above(all, at)|
      {
        var next := S.Order(all, at);
        if next == None {
          S.ListEnds(all, at);
          return;
        }
        S.Advance(all, at, next.value);
        S.Listed(S.ListOf(all, 0), ids, next.value, S.ListOf(all, next.value));
        ids := ids + [next.value];
        at := next.value;
      }
    }

    method Fetch(ids: seq<int>) returns (rows: seq<S.Object>)
      ensures rows == S.Rows(Value(), ids)
    {
      rows := [];
      for i := 0 to |ids|
        invariant rows == S.Rows(Value(), ids[..i])
      {
        assert ids[..i + 1][..i] == ids[..i];
        rows := rows + [if ids[i] in data then data[ids[i]] else map[]];
      }
      assert ids[..|ids|] == ids;
    }

    /** Without a query, everything. */
    method Find(query: Option<S.Query>) returns (rows: seq<S.Object>)
      ensures rows == if query.Some? then S.Find(Value(), query.value) else S.AllRows(Value())
    {
      var ids: seq<int> := [];
      if query.Some? && query.value.One? && query.value.clause.prop in indexes {
        var field, expression := query.value.clause.prop, query.value.clause.expression;
        var hits := if expression.Bare? then set e | e in index && e.0 == field && e.1 == expression.value :: e.2 else {};
        assert hits == S.Lookup(Value(), query.value.clause);
        ids := Ids(hits);
      }
      if |ids| == 0 {
        ids := Ids(data.Keys);
      }
      rows := Fetch(ids);
      if query.Some? {
        rows := S.Execute(query.value, rows);
      }
    }

    method ReIndex()
      requires S.Identified(Value())
      modifies this`index
      ensures Value() == S.ReIndex(old(Value())) && S.AllIndexed(Value())
    {
      S.ReIndexMakes(Value());
      S.AllRowsIdentified(Value());
      hide S.AllIndexed, S.Entries, S.Identified, S.AllEntries, S.AllRows, S.Rows;
      var us := Find(None);
      IndexAll(us);
    }

    method IndexAll(us: seq<S.Object>)
      requires forall k :: 0 <= k < |us| ==> S.ID in us[k]
      modifies this`index
      ensures index == old(index) + S.AllEntries(indexes, us)
    {
      hide S.Entries;
      for i := 0 to |us|
        invariant index == old(index) + S.AllEntries(indexes, us[..i])
      {
        assert us[..i + 1][..i] == us[..i];
        UpdateIndex(true, us[i]);
      }
      assert us[..|us|] == us;
    }
  }
}
