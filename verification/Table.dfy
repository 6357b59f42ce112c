/** A table: a heap of rows under record ids, and an index from primary keys to record ids. The heap is the
    specification of the tuple store, the index that of the paged B+ tree. */
module Table {
  import opened Options
  import opened SqlValues
  import opened SqlExpressions

  type Rid = nat

  datatype TableRow = TableRow(rid: Rid, values: Row)

  datatype TableError = NotFound | DuplicateKey | InvalidRow

  datatype Outcome<T> = Done(value: T) | Failed(error: TableError)

  function PrimaryKeyColumn(schema: Schema): (r: Option<nat>)
    ensures r.Some? ==> r.value < |schema| && schema[r.value].primaryKey
    ensures r.None? ==> forall i :: 0 <= i < |schema| ==> !schema[i].primaryKey
  {
    PrimaryKeyFrom(schema, 0)
  }

  function PrimaryKeyFrom(schema: Schema, k: nat): (r: Option<nat>)
    requires k <= |schema|
    ensures r.Some? ==> r.value < |schema| && schema[r.value].primaryKey
    ensures r.None? ==> forall i :: k <= i < |schema| ==> !schema[i].primaryKey
    decreases |schema| - k
  {
    if k == |schema| then None else if schema[k].primaryKey then Some(k) else PrimaryKeyFrom(schema, k + 1)
  }

  /** The key of a row of the schema. */
  function KeyOf(schema: Schema, row: Row): (r: int)
    requires SchemaOk(schema) && RowFits(schema, row) && PrimaryKeyColumn(schema).Some?
  {
    assert ValueFits(schema[PrimaryKeyColumn(schema).value], row[PrimaryKeyColumn(schema).value]);
    row[PrimaryKeyColumn(schema).value].u
  }

  lemma FreshExists(used: set<Rid>)
    ensures exists r: Rid :: r !in used
  {
    var top: Rid := Above(used);
    assert top !in used;
  }

  /** A record id above all in use. */
  ghost function Above(used: set<Rid>): (top: Rid)
    ensures forall r :: r in used ==> r < top
  {
    if used == {} then 0
    else
      var r :| r in used;
      var rest := Above(used - {r});
      assert forall x :: x in used ==> x == r || x in used - {r};
      if r < rest then rest else r + 1
  }

  ghost predicate HeapOk(schema: Schema, heap: map<Rid, Row>) {
    SchemaOk(schema) && forall r :: r in heap ==> RowFits(schema, heap[r])
  }

  /** Index and heap in one-to-one agreement. */
  ghost predicate Agree(schema: Schema, heap: map<Rid, Row>, index: map<int, Rid>)
    requires HeapOk(schema, heap) && PrimaryKeyColumn(schema).Some?
  {
    && (forall k :: k in index ==> index[k] in heap && KeyOf(schema, heap[index[k]]) == k)
    && (forall r :: r in heap ==> KeyOf(schema, heap[r]) in index && index[KeyOf(schema, heap[r])] == r)
  }

  ghost predicate TableOk(schema: Schema, heap: map<Rid, Row>, index: map<int, Rid>) {
    HeapOk(schema, heap) && if PrimaryKeyColumn(schema).Some? then Agree(schema, heap, index) else index == map[]
  }

  /** No other row has the key of this one. */
  ghost predicate KeyFree(schema: Schema, heap: map<Rid, Row>, rid: Rid, row: Row)
    requires HeapOk(schema, heap) && RowFits(schema, row)
  {
    PrimaryKeyColumn(schema).Some? ==>
      forall r :: r in heap && r != rid ==> KeyOf(schema, heap[r]) != KeyOf(schema, row)
  }

  lemma KeyFreeExact(schema: Schema, heap: map<Rid, Row>, index: map<int, Rid>, rid: Rid, row: Row)
    requires TableOk(schema, heap, index) && PrimaryKeyColumn(schema).Some? && rid in heap && RowFits(schema, row)
    ensures KeyFree(schema, heap, rid, row) <==>
              KeyOf(schema, row) == KeyOf(schema, heap[rid]) || KeyOf(schema, row) !in index
  {
    hide KeyOf, RowFits;
    var k := KeyOf(schema, row);
    if k in index {
      assert index[k] in heap;
    }
  }

  /** A row replaced under the same or a new record id, with its key moved along. */
  lemma ReplaceAgrees(schema: Schema, heap: map<Rid, Row>, index: map<int, Rid>, rid: Rid, target: Rid, row: Row)
    requires TableOk(schema, heap, index) && PrimaryKeyColumn(schema).Some? && rid in heap && RowFits(schema, row)
    requires (target == rid || target !in heap) && KeyFree(schema, heap, rid, row)
    ensures TableOk(schema, (heap - {rid})[target := row],
                    (index - {KeyOf(schema, heap[rid])})[KeyOf(schema, row) := target])
  {
    hide KeyOf, RowFits;
    var heap' := (heap - {rid})[target := row];
    var index' := (index - {KeyOf(schema, heap[rid])})[KeyOf(schema, row) := target];
    forall r | r in heap' ensures KeyOf(schema, heap'[r]) in index' && index'[KeyOf(schema, heap'[r])] == r {
      if r != target {
        assert heap'[r] == heap[r] && index[KeyOf(schema, heap[r])] == r;
      }
    }
    forall k | k in index' ensures index'[k] in heap' && KeyOf(schema, heap'[index'[k]]) == k {
      if k != KeyOf(schema, row) {
        assert index[k] in heap && index[k] != rid;
      }
    }
  }

  class Table {
    const schema: Schema
    var heap: map<Rid, Row>
    var index: map<int, Rid>

    ghost predicate Valid()
      reads this
    {
      TableOk(schema, heap, index)
    }

    predicate Keyed()
    {
      PrimaryKeyColumn(schema).Some?
    }

    constructor (schema: Schema)
      requires SchemaOk(schema)
      ensures Valid() && this.schema == schema && heap == map[]
    {
      this.schema := schema;
      heap, index := map[], map[];
    }

    /** The tuple store's insert: any record id not in use. */
    method HeapInsert(row: Row) returns (rid: Rid)
      modifies this`heap
      ensures rid !in old(heap) && heap == old(heap)[rid := row]
    {
      FreshExists(heap.Keys);
      rid :| rid !in heap;
      heap := heap[rid := row];
    }

    /** The tuple store's update in place, which the page may have no room for. */
    method HeapTryUpdate(rid: Rid, row: Row) returns (ok: bool)
      requires rid in heap
      modifies this`heap
      ensures heap == if ok then old(heap)[rid := row] else old(heap)
    {
      ok := *;
      if ok {
        heap := heap[rid := row];
      }
    }

    /** The index takes a key it does not have. */
    method IndexInsert(key: int, rid: Rid)
      requires key !in index
      modifies this`index
      ensures index == old(index)[key := rid]
    {
      index := index[key := rid];
    }

    /** The index gives up a key it has. */
    method IndexErase(key: int)
      requires key in index
      modifies this`index
      ensures index == old(index) - {key}
    {
      index := index - {key};
    }

    method Insert(row: Row) returns (res: Outcome<Rid>)
      requires Valid()
      modifies this
      ensures Valid()
      ensures res.Done? ==> res.value !in old(heap) && heap == old(heap)[res.value := row]
      ensures res.Failed? ==> unchanged(this)
      ensures res.Done? <==>
                && RowFits(schema, row)
                && (Keyed() ==> forall r :: r in old(heap) ==> KeyOf(schema, old(heap)[r]) != KeyOf(schema, row))
    {
      var fits := ValidateValues(schema, row);
      if !fits {
        return Failed(InvalidRow);
      }
      if !Keyed() {
        var rid := HeapInsert(row);
        return Done(rid);
      }
      var key := KeyOf(schema, row);
      if key in index {
        return Failed(DuplicateKey);
      }
      var rid := HeapInsert(row);
      IndexInsert(key, rid);
      res := Done(rid);
    }

    method FindByPrimaryKey(key: int) returns (res: Option<TableRow>)
      requires Valid() && Keyed()
      ensures res.Some? ==>
                && res.value.rid in heap && heap[res.value.rid] == res.value.values
                && KeyOf(schema, res.value.values) == key
      ensures res.None? ==> forall r :: r in heap ==> KeyOf(schema, heap[r]) != key
    {
      if key !in index {
        return None;
      }
      res := Some(TableRow(index[key], heap[index[key]]));
    }

    /** Every row once, in the heap's order. */
    method Scan() returns (rows: seq<TableRow>)
      ensures forall i :: 0 <= i < |rows| ==> rows[i].rid in heap && heap[rows[i].rid] == rows[i].values
      ensures forall i, j :: 0 <= i < j < |rows| ==> rows[i].rid != rows[j].rid
      ensures forall r :: r in heap ==> TableRow(r, heap[r]) in rows
    {
      rows := [];
      var left := heap.Keys;
      while left != {}
        invariant left <= heap.Keys
        invariant forall i :: 0 <= i < |rows| ==>
                    rows[i].rid in heap && rows[i].rid !in left && heap[rows[i].rid] == rows[i].values
        invariant forall i, j :: 0 <= i < j < |rows| ==> rows[i].rid != rows[j].rid
        invariant forall r :: r in heap ==> r in left || TableRow(r, heap[r]) in rows
        decreases left
      {
        var r :| r in left;
        rows := rows + [TableRow(r, heap[r])];
        left := left - {r};
      }
    }

    method Erase(rid: Rid) returns (res: Outcome<()>)
      requires Valid()
      modifies this
      ensures Valid()
      ensures res.Done? <==> rid in old(heap)
      ensures heap == old(heap) - {rid}
    {
      if rid !in heap {
        return Failed(NotFound);
      }
      if Keyed() {
        IndexErase(KeyOf(schema, heap[rid]));
      }
      heap := heap - {rid};
      res := Done(());
    }

    method EraseByPrimaryKey(key: int) returns (found: bool)
      requires Valid() && Keyed()
      modifies this
      ensures Valid()
      ensures found <==> exists r :: r in old(heap) && KeyOf(schema, old(heap)[r]) == key
      ensures forall r :: r in heap <==> r in old(heap) && KeyOf(schema, old(heap)[r]) != key
      ensures forall r :: r in heap ==> heap[r] == old(heap)[r]
    {
      if key !in index {
        return false;
      }
      var rid := index[key];
      IndexErase(key);
      heap := heap - {rid};
      found := true;
    }

    /** Replaces a row, in place or under another record id when the page has no room. */
    method Update(rid: Rid, row: Row) returns (res: Outcome<Rid>)
      requires Valid()
      modifies this
      ensures Valid()
      ensures res.Done? ==>
                (res.value == rid || res.value !in old(heap)) && heap == (old(heap) - {rid})[res.value := row]
      ensures res.Failed? ==> unchanged(this)
      ensures res.Done? <==> rid in old(heap) && RowFits(schema, row) && KeyFree(schema, old(heap), rid, row)
    {
      if rid !in heap {
        return Failed(NotFound);
      }
      if Keyed() {
        res := UpdateByPrimaryKey(KeyOf(schema, heap[rid]), row);
        return;
      }
      var fits := ValidateValues(schema, row);
      if !fits {
        return Failed(InvalidRow);
      }
      res := Replace(rid, row);
    }

    /** The heap's part of a replacement. */
    method Replace(rid: Rid, row: Row) returns (res: Outcome<Rid>)
      requires rid in heap
      modifies this`heap
      ensures res.Done? && (res.value == rid || res.value !in old(heap))
      ensures heap == (old(heap) - {rid})[res.value := row]
    {
      var inPlace := HeapTryUpdate(rid, row);
      if inPlace {
        return Done(rid);
      }
      var moved := HeapInsert(row);
      heap := heap - {rid};
      res := Done(moved);
    }

    method UpdateByPrimaryKey(oldKey: int, row: Row) returns (res: Outcome<Rid>)
      requires Valid() && Keyed()
      modifies this
      ensures Valid()
      ensures res.Failed? ==> unchanged(this)
      ensures oldKey in old(index) ==>
                var rid := old(index)[oldKey];
                && (res.Done? ==> res.value == rid || res.value !in old(heap))
                && (res.Done? ==> heap == (old(heap) - {rid})[res.value := row])
                && (res.Done? <==> RowFits(schema, row) && KeyFree(schema, old(heap), rid, row))
      ensures oldKey !in old(index) ==> res == Failed(NotFound)
    {
      hide TableOk, KeyOf, KeyFree, RowFits;
      AgreesAt(oldKey);
      if oldKey !in index {
        return Failed(NotFound);
      }
      var rid := index[oldKey];
      var fits := ValidateValues(schema, row);
      if !fits {
        return Failed(InvalidRow);
      }
      var newKey := KeyOf(schema, row);
      KeyFreeExact(schema, heap, index, rid, row);
      if newKey != oldKey && newKey in index {
        return Failed(DuplicateKey);
      }
      ghost var heap0, index0 := heap, index;
      var inPlace := HeapTryUpdate(rid, row);
      if inPlace {
        ReplaceAgrees(schema, heap0, index0, rid, rid, row);
        assert heap == (heap0 - {rid})[rid := row];
        if newKey != oldKey {
          IndexErase(oldKey);
          IndexInsert(newKey, rid);
        } else {
          assert index == (index - {oldKey})[newKey := rid];
        }
        return Done(rid);
      }
      var moved := HeapInsert(row);
      ReplaceAgrees(schema, heap0, index0, rid, moved, row);
      if newKey == oldKey {
        IndexErase(oldKey);
        IndexInsert(newKey, moved);
      } else {
        IndexInsert(newKey, moved);
        IndexErase(oldKey);
        assert index == (index0 - {oldKey})[newKey := moved];
      }
      heap := heap - {rid};
      assert heap == (heap0 - {rid})[moved := row];
      res := Done(moved);
    }

    lemma AgreesAt(key: int)
      requires Valid() && Keyed()
      ensures HeapOk(schema, heap)
      ensures key in index ==> index[key] in heap && KeyOf(schema, heap[index[key]]) == key
    {
    }
  }
}
