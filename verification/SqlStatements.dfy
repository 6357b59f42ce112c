/** SELECT's row selection, UPDATE and DELETE over one table. */
module SqlStatements {
  import opened Options
  import opened SqlValues
  import opened SqlExpressions
  import opened Table

  // ---- Which rows a WHERE clause selects ----

  /** What a clause selects, by its meaning alone. */
  ghost predicate Selects(where: Option<Expression>, schema: Schema, row: Row) {
    where.Some? ==> TruthOfDatum(Meaning(where.value, schema, row)).True?
  }

  /** The bound form of an accepted clause. */
  ghost predicate BoundAs(bound: Option<Bound>, where: Option<Expression>, schema: Schema) {
    match where
    case None => bound.None?
    case Some(e) => ExpressionOk(e) && bound.Some? && Bind(e, schema) == Ok(bound.value) && Logical(bound.value)
  }

  /** The clause is accepted: its names and literals bind, and it is a condition. */
  predicate WhereBinds(where: Option<Expression>, schema: Schema)
    requires where.Some? ==> ExpressionOk(where.value)
  {
    where.Some? ==> Bind(where.value, schema).Ok? && Logical(Bind(where.value, schema).value)
  }

  method BindWhere(where: Option<Expression>, schema: Schema) returns (res: Result<Option<Bound>>)
    requires where.Some? ==> ExpressionOk(where.value)
    ensures res.Ok? ==> BoundAs(res.value, where, schema)
    ensures res.Ok? <==> WhereBinds(where, schema)
  {
    if where.None? {
      return Ok(None);
    }
    var b := Bind(where.value, schema);
    if b.Err? {
      return Err(b.error);
    }
    res := if Logical(b.value) then Ok(Some(b.value)) else Err(Semantic);
  }

  ghost predicate RowOf(heap: map<Rid, Row>, r: TableRow) {
    r.rid in heap && heap[r.rid] == r.values
  }

  ghost predicate Distinct(rows: seq<TableRow>) {
    forall i, j :: 0 <= i < j < |rows| ==> rows[i].rid != rows[j].rid
  }

  /** Exactly the selected rows, each once. */
  ghost predicate Matches(rows: seq<TableRow>, heap: map<Rid, Row>, where: Option<Expression>, schema: Schema) {
    && Distinct(rows)
    && (forall r :: r in rows ==> RowOf(heap, r) && Selects(where, schema, r.values))
    && (forall rid :: rid in heap && Selects(where, schema, heap[rid]) ==> TableRow(rid, heap[rid]) in rows)
  }

  /** The record ids of the selected rows. */
  ghost function Selected(heap: map<Rid, Row>, where: Option<Expression>, schema: Schema): (rids: set<Rid>) {
    set rid | rid in heap && Selects(where, schema, heap[rid])
  }

  lemma {:induction false} DistinctCount(rows: seq<TableRow>)
    requires Distinct(rows)
    ensures |set r | r in rows :: r.rid| == |rows|
  {
    if rows != [] {
      var n := |rows| - 1;
      DistinctCount(rows[..n]);
      assert rows == rows[..n] + [rows[n]];
      assert (set r | r in rows :: r.rid) == (set r | r in rows[..n] :: r.rid) + {rows[n].rid};
      assert rows[n].rid !in set r | r in rows[..n] :: r.rid;
    }
  }

  lemma MatchCount(rows: seq<TableRow>, heap: map<Rid, Row>, where: Option<Expression>, schema: Schema)
    requires Matches(rows, heap, where, schema)
    ensures |rows| == |Selected(heap, where, schema)|
  {
    hide Selects;
    DistinctCount(rows);
    forall rid | rid in Selected(heap, where, schema) ensures rid in set r | r in rows :: r.rid {
      assert TableRow(rid, heap[rid]).rid == rid;
    }
    assert (set r | r in rows :: r.rid) == Selected(heap, where, schema);
  }

  /** Does this row satisfy the bound clause? */
  method Satisfies(bound: Option<Bound>, row: Row, schema: Schema, ghost where: Option<Expression>) returns (b: bool)
    requires BoundAs(bound, where, schema) && RowFits(schema, row)
    ensures b <==> Selects(where, schema, row)
    ensures b && bound.Some? ==> EvaluateTruth(bound.value, row) == Some(True)
  {
    if bound.None? {
      return true;
    }
    WhereMeans(where.value, schema, row);
    b := EvaluateTruth(bound.value, row).value.True?;
  }

  /** The rows a clause selects, by one index lookup when it pins the primary key and by a heap scan
      otherwise; the result is the same either way. */
  method MatchingRows(table: Table, bound: Option<Bound>, ghost where: Option<Expression>) returns (rows: seq<TableRow>)
    requires table.Valid() && BoundAs(bound, where, table.schema)
    ensures Matches(rows, table.heap, where, table.schema)
  {
    hide Selects, BoundAs, KeyOf, RowFits, Agree;
    var primaryKey := PrimaryKeyColumn(table.schema);
    var candidate := if bound.None? || primaryKey.None? then None
                     else PrimaryKeyCandidate(bound.value, primaryKey.value);
    rows := [];
    if candidate.Some? {
      var found := table.FindByPrimaryKey(candidate.value);
      OnlyCandidate(table, bound, where, primaryKey.value, candidate.value);
      if found.Some? {
        var b := Satisfies(bound, found.value.values, table.schema, where);
        OneRow(table, found.value);
        if b {
          rows := [found.value];
        }
      }
    } else {
      var all := table.Scan();
      rows := Filter(table, all, bound, where);
    }
  }

  lemma OneRow(table: Table, r: TableRow)
    requires table.Valid() && table.Keyed() && RowOf(table.heap, r)
    ensures RowFits(table.schema, r.values)
    ensures forall rid :: rid in table.heap && KeyOf(table.schema, table.heap[rid]) == KeyOf(table.schema, r.values) ==>
              rid == r.rid
  {
  }

  /** A selected row has the candidate key. */
  lemma OnlyCandidate(table: Table, bound: Option<Bound>, where: Option<Expression>, primaryKey: nat, key: int)
    requires table.Valid() && BoundAs(bound, where, table.schema) && bound.Some?
    requires PrimaryKeyColumn(table.schema) == Some(primaryKey)
    requires PrimaryKeyCandidate(bound.value, primaryKey) == Some(key)
    ensures forall rid :: rid in table.heap && Selects(where, table.schema, table.heap[rid]) ==>
              KeyOf(table.schema, table.heap[rid]) == key
  {
    hide Agree, Bind, Meaning, EvaluateTruth, PrimaryKeyCandidate;
    forall rid | rid in table.heap && Selects(where, table.schema, table.heap[rid])
      ensures KeyOf(table.schema, table.heap[rid]) == key
    {
      WhereMeans(where.value, table.schema, table.heap[rid]);
      CandidateNecessary(bound.value, primaryKey, table.heap[rid]);
    }
  }

  method Filter(table: Table, all: seq<TableRow>, bound: Option<Bound>,
                ghost where: Option<Expression>) returns (rows: seq<TableRow>)
    requires table.Valid() && BoundAs(bound, where, table.schema)
    requires Distinct(all) && (forall r :: r in all ==> RowOf(table.heap, r))
    requires forall rid :: rid in table.heap ==> TableRow(rid, table.heap[rid]) in all
    ensures Matches(rows, table.heap, where, table.schema)
  {
    hide Selects, BoundAs, KeyOf, RowFits, Agree;
    rows := [];
    for i := 0 to |all|
      invariant Distinct(rows)
      invariant forall k :: 0 <= k < |rows| ==> rows[k] in all[..i] && Selects(where, table.schema, rows[k].values)
      invariant forall k :: 0 <= k < i && Selects(where, table.schema, all[k].values) ==> all[k] in rows
    {
      assert all[i] in all && RowOf(table.heap, all[i]);
      var b := Satisfies(bound, all[i].values, table.schema, where);
      assert all[..i + 1] == all[..i] + [all[i]];
      if b {
        rows := rows + [all[i]];
      }
    }
  }

  // ---- DELETE ----

  method ExecuteDelete(table: Table, where: Option<Expression>) returns (res: Result<nat>)
    requires table.Valid() && (where.Some? ==> ExpressionOk(where.value))
    modifies table
    ensures table.Valid()
    ensures res.Ok? <==> WhereBinds(where, table.schema)
    ensures res.Err? ==> table.heap == old(table.heap)
    ensures res.Ok? ==> table.heap.Keys == old(table.heap).Keys - Selected(old(table.heap), where, table.schema)
    ensures res.Ok? ==> res.value == |Selected(old(table.heap), where, table.schema)|
    ensures forall rid :: rid in table.heap ==> table.heap[rid] == old(table.heap)[rid]
  {
    hide Selects, TableOk;
    var bound := BindWhere(where, table.schema);
    if bound.Err? {
      return Err(bound.error);
    }
    var targets := MatchingRows(table, bound.value, where);
    ghost var heap0 := table.heap;
    for i := 0 to |targets|
      invariant table.Valid()
      invariant forall rid :: rid in table.heap <==> rid in heap0 && forall k :: 0 <= k < i ==> targets[k].rid != rid
      invariant forall rid :: rid in table.heap ==> table.heap[rid] == heap0[rid]
    {
      assert targets[i] in targets;
      var erased := table.Erase(targets[i].rid);
    }
    forall rid | rid in heap0 && Selects(where, table.schema, heap0[rid]) ensures rid !in table.heap {
      assert TableRow(rid, heap0[rid]) in targets;
    }
    forall rid | rid in heap0 && rid !in table.heap ensures Selects(where, table.schema, heap0[rid]) {
      var k :| 0 <= k < |targets| && targets[k].rid == rid;
      assert targets[k] in targets;
    }
    MatchCount(targets, heap0, where, table.schema);
    res := Ok(|targets|);
  }

  // ---- UPDATE ----

  datatype Assignment = Assignment(column: nat, value: Value)

  ghost predicate AssignmentsOk(assigns: seq<Assignment>, schema: Schema) {
    && (forall k :: 0 <= k < |assigns| ==>
          assigns[k].column < |schema| && ValueFits(schema[assigns[k].column], assigns[k].value))
    && (forall j, k :: 0 <= j < k < |assigns| ==> assigns[j].column != assigns[k].column)
  }

  /** Assignment k names a column that no earlier one names, and its literal fits there. */
  predicate AssignmentBinds(sets: seq<(string, Literal)>, schema: Schema, k: nat)
    requires k < |sets| && LiteralOk(sets[k].1)
  {
    var column := FindColumn(schema, sets[k].0);
    && column.Some? && column.value < |schema| && ConvertLiteral(sets[k].1, schema[column.value]).Ok?
    && forall j :: 0 <= j < k ==> FindColumn(schema, sets[j].0) != column
  }

  predicate AssignmentsBind(sets: seq<(string, Literal)>, schema: Schema)
    requires forall k :: 0 <= k < |sets| ==> LiteralOk(sets[k].1)
  {
    forall k: nat :: k < |sets| ==> AssignmentBinds(sets, schema, k)
  }

  method BindAssignments(sets: seq<(string, Literal)>, schema: Schema) returns (res: Result<seq<Assignment>>)
    requires forall k :: 0 <= k < |sets| ==> LiteralOk(sets[k].1)
    ensures res.Ok? <==> AssignmentsBind(sets, schema)
    ensures res.Ok? ==>
              && |res.value| == |sets| && AssignmentsOk(res.value, schema)
              && forall k :: 0 <= k < |sets| ==>
                   FindColumn(schema, sets[k].0) == Some(res.value[k].column) && Denotes(sets[k].1, res.value[k].value)
  {
    hide FindColumn, Denotes, LiteralOk, ValueFits;
    var assigns := [];
    for i := 0 to |sets|
      invariant |assigns| == i && AssignmentsOk(assigns, schema)
      invariant forall k :: 0 <= k < i ==>
                  FindColumn(schema, sets[k].0) == Some(assigns[k].column) && Denotes(sets[k].1, assigns[k].value)
      invariant forall k: nat :: k < i ==> AssignmentBinds(sets, schema, k)
    {
      var column := FindColumn(schema, sets[i].0);
      if column.None? || exists a :: a in assigns && a.column == column.value {
        assert !AssignmentBinds(sets, schema, i);
        return Err(Semantic);
      }
      var value := ConvertLiteral(sets[i].1, schema[column.value]);
      if value.Err? {
        assert !AssignmentBinds(sets, schema, i);
        return Err(value.error);
      }
      assigns := assigns + [Assignment(column.value, value.value)];
    }
    res := Ok(assigns);
  }

  /** A row with the assigned columns replaced. */
  function Assigned(row: Row, assigns: seq<Assignment>): (r: Row) {
    if assigns == [] then row
    else
      var front, last := Assigned(row, assigns[..|assigns| - 1]), assigns[|assigns| - 1];
      if last.column < |front| then front[last.column := last.value] else front
  }

  /** What the row becomes. */
  ghost function After(where: Option<Expression>, schema: Schema, assigns: seq<Assignment>, row: Row): (r: Row) {
    if Selects(where, schema, row) then Assigned(row, assigns) else row
  }

  lemma {:induction false} AssignedAt(row: Row, assigns: seq<Assignment>, schema: Schema)
    requires AssignmentsOk(assigns, schema) && |row| == |schema|
    ensures |Assigned(row, assigns)| == |row|
    ensures forall k :: 0 <= k < |assigns| ==> Assigned(row, assigns)[assigns[k].column] == assigns[k].value
    ensures forall i :: 0 <= i < |row| && (forall k :: 0 <= k < |assigns| ==> assigns[k].column != i) ==>
              Assigned(row, assigns)[i] == row[i]
  {
    if assigns != [] {
      var front := assigns[..|assigns| - 1];
      assert forall k :: 0 <= k < |front| ==> front[k] == assigns[k];
      AssignedAt(row, front, schema);
      var last := assigns[|assigns| - 1];
      assert Assigned(row, assigns) == Assigned(row, front)[last.column := last.value];
      forall k | 0 <= k < |front| ensures Assigned(row, assigns)[assigns[k].column] == assigns[k].value {
        assert front[k].column != last.column;
      }
      forall i | 0 <= i < |row| && forall k :: 0 <= k < |assigns| ==> assigns[k].column != i
        ensures Assigned(row, assigns)[i] == row[i]
      {
        assert last.column != i;
      }
    }
  }

  lemma AssignedFits(row: Row, assigns: seq<Assignment>, schema: Schema)
    requires AssignmentsOk(assigns, schema) && RowFits(schema, row)
    ensures RowFits(schema, Assigned(row, assigns))
  {
    AssignedAt(row, assigns, schema);
    forall i | 0 <= i < |row| ensures ValueFits(schema[i], Assigned(row, assigns)[i]) {
      if k :| 0 <= k < |assigns| && assigns[k].column == i {
        assert Assigned(row, assigns)[assigns[k].column] == assigns[k].value;
      } else {
        assert Assigned(row, assigns)[i] == row[i];
      }
    }
  }

  /** A literal in the key column gives every assigned row that key; without one every row keeps its own. */
  lemma AssignedKey(row: Row, other: Row, assigns: seq<Assignment>, schema: Schema)
    requires SchemaOk(schema) && PrimaryKeyColumn(schema).Some? && AssignmentsOk(assigns, schema)
    requires RowFits(schema, row) && RowFits(schema, other)
    ensures RowFits(schema, Assigned(row, assigns)) && RowFits(schema, Assigned(other, assigns))
    ensures var rekeyed := exists k :: 0 <= k < |assigns| && assigns[k].column == PrimaryKeyColumn(schema).value;
            if rekeyed then KeyOf(schema, Assigned(row, assigns)) == KeyOf(schema, Assigned(other, assigns))
            else KeyOf(schema, Assigned(row, assigns)) == KeyOf(schema, row)
  {
    AssignedFits(row, assigns, schema);
    AssignedFits(other, assigns, schema);
    AssignedAt(row, assigns, schema);
    AssignedAt(other, assigns, schema);
  }

  /** The rows of a table after the statement as a whole, under their old record ids. */
  ghost function AfterAll(where: Option<Expression>, schema: Schema, assigns: seq<Assignment>,
                          heap: map<Rid, Row>): (r: map<Rid, Row>) {
    map rid | rid in heap :: After(where, schema, assigns, heap[rid])
  }

  lemma AfterFits(where: Option<Expression>, schema: Schema, assigns: seq<Assignment>, heap: map<Rid, Row>)
    requires HeapOk(schema, heap) && AssignmentsOk(assigns, schema)
    ensures HeapOk(schema, AfterAll(where, schema, assigns, heap))
  {
    forall rid | rid in heap ensures RowFits(schema, After(where, schema, assigns, heap[rid])) {
      AssignedFits(heap[rid], assigns, schema);
    }
  }

  /** No two rows share a primary key. */
  ghost predicate UniqueKeys(schema: Schema, heap: map<Rid, Row>)
    requires HeapOk(schema, heap)
  {
    PrimaryKeyColumn(schema).Some? ==>
      forall a, b :: a in heap && b in heap && a != b ==> KeyOf(schema, heap[a]) != KeyOf(schema, heap[b])
  }

  ghost predicate Replacements(targets: seq<TableRow>, replacements: seq<Row>, schema: Schema, heap: map<Rid, Row>) {
    && |targets| == |replacements| && Distinct(targets) && (forall r :: r in targets ==> RowOf(heap, r))
    && (forall i :: 0 <= i < |replacements| ==> RowFits(schema, replacements[i]))
  }

  ghost predicate IsTarget(targets: seq<TableRow>, rid: Rid) {
    exists i :: 0 <= i < |targets| && targets[i].rid == rid
  }

  /** What the check before an UPDATE establishes. */
  ghost predicate KeysFree(targets: seq<TableRow>, replacements: seq<Row>, schema: Schema, heap: map<Rid, Row>)
    requires HeapOk(schema, heap) && Replacements(targets, replacements, schema, heap) && PrimaryKeyColumn(schema).Some?
  {
    && (forall i, j :: 0 <= i < j < |replacements| ==> KeyOf(schema, replacements[i]) != KeyOf(schema, replacements[j]))
    && (forall i, rid :: 0 <= i < |replacements| && rid in heap && !IsTarget(targets, rid) ==>
          KeyOf(schema, heap[rid]) != KeyOf(schema, replacements[i]))
  }

  /** The new keys are distinct, and each is either unused or used by a row that is itself replaced. */
  method PrevalidateKeys(table: Table, targets: seq<TableRow>, replacements: seq<Row>) returns (ok: bool)
    requires table.Valid() && Replacements(targets, replacements, table.schema, table.heap)
    ensures ok <==> (table.Keyed() ==> KeysFree(targets, replacements, table.schema, table.heap))
  {
    hide KeyOf, RowFits, Agree;
    if !table.Keyed() {
      return true;
    }
    var oldKeys: set<int>, newKeys: set<int> := {}, {};
    for i := 0 to |targets|
      invariant forall k :: 0 <= k < i ==> KeyOf(table.schema, replacements[k]) in newKeys
      invariant forall x :: x in newKeys ==> exists k :: 0 <= k < i && KeyOf(table.schema, replacements[k]) == x
      invariant forall j, k :: 0 <= j < k < i ==>
                  KeyOf(table.schema, replacements[j]) != KeyOf(table.schema, replacements[k])
      invariant OldKeys(table, targets, i, oldKeys)
    {
      assert targets[i] in targets;
      oldKeys := oldKeys + {KeyOf(table.schema, targets[i].values)};
      var key := KeyOf(table.schema, replacements[i]);
      if key in newKeys {
        return false;
      }
      newKeys := newKeys + {key};
    }
    for i := 0 to |replacements|
      invariant forall k :: 0 <= k < i ==> OthersAvoid(table, targets, KeyOf(table.schema, replacements[k]))
    {
      var existing := table.FindByPrimaryKey(KeyOf(table.schema, replacements[i]));
      if existing.Some? {
        TargetByKey(table, targets, oldKeys, existing.value);
        var oldKey := KeyOf(table.schema, existing.value.values);
        if oldKey !in oldKeys {
          return false;
        }
      }
    }
    ok := true;
  }

  ghost predicate OldKeys(table: Table, targets: seq<TableRow>, n: nat, keys: set<int>)
    requires table.Valid() && table.Keyed() && n <= |targets| && forall r :: r in targets ==> RowOf(table.heap, r)
    reads table
  {
    && (forall k :: 0 <= k < n ==> FitsAt(table, targets, k) && KeyOf(table.schema, targets[k].values) in keys)
    && (forall x :: x in keys ==>
          exists k :: 0 <= k < n && FitsAt(table, targets, k) && KeyOf(table.schema, targets[k].values) == x)
  }

  ghost predicate FitsAt(table: Table, targets: seq<TableRow>, k: nat) {
    k < |targets| && RowFits(table.schema, targets[k].values)
  }

  /** No row outside the targets has the key. */
  ghost predicate OthersAvoid(table: Table, targets: seq<TableRow>, key: int)
    requires table.Valid() && table.Keyed()
    reads table
  {
    forall rid :: rid in table.heap && !IsTarget(targets, rid) ==> KeyOf(table.schema, table.heap[rid]) != key
  }

  /** The row with a key is a target exactly when the key is one of the targets' old keys. */
  lemma TargetByKey(table: Table, targets: seq<TableRow>, oldKeys: set<int>, r: TableRow)
    requires table.Valid() && table.Keyed() && RowOf(table.heap, r) && RowFits(table.schema, r.values)
    requires (forall x :: x in targets ==> RowOf(table.heap, x)) && OldKeys(table, targets, |targets|, oldKeys)
    ensures KeyOf(table.schema, r.values) in oldKeys <==> IsTarget(targets, r.rid)
    ensures forall rid :: rid in table.heap && rid != r.rid ==>
              KeyOf(table.schema, table.heap[rid]) != KeyOf(table.schema, r.values)
  {
    hide KeyOf, RowFits;
    OneRow(table, r);
    if IsTarget(targets, r.rid) {
      var i :| 0 <= i < |targets| && targets[i].rid == r.rid;
      assert targets[i] in targets;
      assert FitsAt(table, targets, i);
    }
    if KeyOf(table.schema, r.values) in oldKeys {
      var key := KeyOf(table.schema, r.values);
      var i :| 0 <= i < |targets| && FitsAt(table, targets, i) && KeyOf(table.schema, targets[i].values) == key;
      assert targets[i] in targets;
    }
  }

  /** The check decides, before anything is changed, whether the statement as a whole leaves keys unique. */
  lemma PrevalidationExact(targets: seq<TableRow>, replacements: seq<Row>, where: Option<Expression>,
                           assigns: seq<Assignment>,
                           schema: Schema, heap: map<Rid, Row>, index: map<int, Rid>)
    requires TableOk(schema, heap, index) && AssignmentsOk(assigns, schema) && PrimaryKeyColumn(schema).Some?
    requires Matches(targets, heap, where, schema) && Replacements(targets, replacements, schema, heap)
    requires forall i :: 0 <= i < |targets| ==> replacements[i] == Assigned(targets[i].values, assigns)
    ensures HeapOk(schema, AfterAll(where, schema, assigns, heap))
    ensures KeysFree(targets, replacements, schema, heap) <==>
              UniqueKeys(schema, AfterAll(where, schema, assigns, heap))
  {
    hide KeyOf, RowFits, Selects, Assigned;
    AfterFits(where, schema, assigns, heap);
    var all := AfterAll(where, schema, assigns, heap);
    forall i | 0 <= i < |targets| ensures targets[i].rid in all && all[targets[i].rid] == replacements[i] {
      assert targets[i] in targets;
    }
    forall rid | rid in heap && !IsTarget(targets, rid) ensures all[rid] == heap[rid] {
      Untouched(targets, heap, where, schema, rid);
    }
    if KeysFree(targets, replacements, schema, heap) {
      forall a, b | a in all && b in all && a != b ensures KeyOf(schema, all[a]) != KeyOf(schema, all[b]) {
        if IsTarget(targets, a) {
          var i :| 0 <= i < |targets| && targets[i].rid == a;
          if IsTarget(targets, b) {
            var j :| 0 <= j < |targets| && targets[j].rid == b;
            assert i < j || j < i;
          }
        } else if IsTarget(targets, b) {
          var j :| 0 <= j < |targets| && targets[j].rid == b;
        } else {
          DistinctKeys(schema, heap, index, a, b);
        }
      }
    }
  }

  lemma Untouched(targets: seq<TableRow>, heap: map<Rid, Row>, where: Option<Expression>, schema: Schema, rid: Rid)
    requires Matches(targets, heap, where, schema) && rid in heap && !IsTarget(targets, rid)
    ensures !Selects(where, schema, heap[rid])
  {
    var r := TableRow(rid, heap[rid]);
    assert forall i :: 0 <= i < |targets| ==> targets[i] != r;
  }

  lemma DistinctKeys(schema: Schema, heap: map<Rid, Row>, index: map<int, Rid>, a: Rid, b: Rid)
    requires TableOk(schema, heap, index) && PrimaryKeyColumn(schema).Some? && a in heap && b in heap && a != b
    ensures KeyOf(schema, heap[a]) != KeyOf(schema, heap[b])
  {
    hide KeyOf, RowFits;
    assert index[KeyOf(schema, heap[a])] == a;
  }

  /** Row a is where the moves say, with what it holds now. */
  predicate AtPlace(heap: map<Rid, Row>, moved: map<Rid, Rid>, now: map<Rid, Row>, a: Rid) {
    a in moved && a in now && moved[a] in heap && heap[moved[a]] == now[a]
  }

  /** No two rows have moved to one place. */
  ghost predicate Injective(moved: map<Rid, Rid>) {
    forall a, b :: a in moved && b in moved && moved[a] == moved[b] ==> a == b
  }

  /** Every row of the heap comes from a row of the original heap. */
  ghost predicate Onto(heap: map<Rid, Row>, moved: map<Rid, Rid>) {
    forall r :: r in heap ==> exists a :: a in moved && moved[a] == r
  }

  /** While an UPDATE runs: every row is where the moves say, replaced if its turn has come. */
  ghost predicate Underway(heap0: map<Rid, Row>, heap: map<Rid, Row>, moved: map<Rid, Rid>, now: map<Rid, Row>) {
    && moved.Keys == heap0.Keys && now.Keys == heap0.Keys
    && (forall a :: a in heap0 ==> AtPlace(heap, moved, now, a))
    && Injective(moved) && Onto(heap, moved)
  }

  lemma Starts(heap0: map<Rid, Row>)
    ensures Underway(heap0, heap0, map r | r in heap0 :: r, heap0)
  {
    var moved := map r | r in heap0 :: r;
    assert moved.Keys == heap0.Keys;
    Stays(heap0, moved);
    forall a | a in heap0 ensures AtPlace(heap0, moved, heap0, a) {
    }
  }

  lemma Stays(heap: map<Rid, Row>, moved: map<Rid, Rid>)
    requires moved.Keys == heap.Keys && forall r :: r in moved ==> moved[r] == r
    ensures Injective(moved) && Onto(heap, moved)
  {
    forall r | r in heap ensures exists a :: a in moved && moved[a] == r {
      assert r in moved && moved[r] == r;
    }
  }

  /** One more row replaced, wherever it ended up. */
  lemma Moves(heap0: map<Rid, Row>, heap: map<Rid, Row>, moved: map<Rid, Rid>, now: map<Rid, Row>, t: Rid, target: Rid,
              row: Row)
    requires Underway(heap0, heap, moved, now) && t in heap0 && moved[t] == t && (target == t || target !in heap)
    ensures Underway(heap0, (heap - {t})[target := row], moved[t := target], now[t := row])
  {
    hide Onto, Injective;
    var heap', moved', now' := (heap - {t})[target := row], moved[t := target], now[t := row];
    forall a | a in heap0 ensures AtPlace(heap', moved', now', a) {
      assert AtPlace(heap, moved, now, a);
      MovesOne(heap, moved, now, t, target, row, a);
    }
    forall a | a in moved ensures moved[a] in heap {
      assert AtPlace(heap, moved, now, a);
    }
    MovesApart(heap, moved, t, target);
    MovesOnto(heap, heap', moved, moved', t, target);
  }

  lemma MovesOne(heap: map<Rid, Row>, moved: map<Rid, Rid>, now: map<Rid, Row>, t: Rid, target: Rid, row: Row, a: Rid)
    requires AtPlace(heap, moved, now, a) && Injective(moved) && t in moved && moved[t] == t
    requires target == t || target !in heap
    ensures AtPlace((heap - {t})[target := row], moved[t := target], now[t := row], a)
  {
  }

  lemma MovesApart(heap: map<Rid, Row>, moved: map<Rid, Rid>, t: Rid, target: Rid)
    requires Injective(moved) && (forall a :: a in moved ==> moved[a] in heap)
    requires t in moved && moved[t] == t && (target == t || target !in heap)
    ensures Injective(moved[t := target])
  {
  }

  lemma MovesOnto(heap: map<Rid, Row>, heap': map<Rid, Row>, moved: map<Rid, Rid>, moved': map<Rid, Rid>, t: Rid,
                  target: Rid)
    requires t in moved && moved[t] == t && moved' == moved[t := target]
    requires heap'.Keys == heap.Keys - {t} + {target} && Onto(heap, moved)
    ensures Onto(heap', moved')
  {
    forall r | r in heap' ensures exists a :: a in moved' && moved'[a] == r {
      if r == target {
        assert moved'[t] == target;
      } else {
        assert r in heap;
        var a :| a in moved && moved[a] == r;
        assert moved'[a] == r;
      }
    }
  }

  /** The key a row is about to take is taken by nobody: not by rows already replaced, nor by rows yet to be. */
  lemma NoCollision(schema: Schema, heap0: map<Rid, Row>, index0: map<int, Rid>, where: Option<Expression>,
                    assigns: seq<Assignment>,
                    now: map<Rid, Row>, t: Rid, a: Rid)
    requires TableOk(schema, heap0, index0) && AssignmentsOk(assigns, schema) && PrimaryKeyColumn(schema).Some?
    requires HeapOk(schema, AfterAll(where, schema, assigns, heap0))
    requires UniqueKeys(schema, AfterAll(where, schema, assigns, heap0))
    requires t in heap0 && a in heap0 && a != t && Selects(where, schema, heap0[t]) && a in now
    requires now[a] == heap0[a] || now[a] == After(where, schema, assigns, heap0[a])
    ensures RowFits(schema, now[a]) && RowFits(schema, Assigned(heap0[t], assigns))
    ensures KeyOf(schema, now[a]) != KeyOf(schema, Assigned(heap0[t], assigns))
  {
    hide KeyOf, RowFits, Selects, Assigned, AssignmentsOk;
    var all := AfterAll(where, schema, assigns, heap0);
    assert all[t] == Assigned(heap0[t], assigns) && all[a] == After(where, schema, assigns, heap0[a]);
    AssignedKey(heap0[t], heap0[a], assigns, schema);
    DistinctKeys(schema, heap0, index0, t, a);
  }

  /** The rows the assignments make of the targets. */
  method MakeReplacements(table: Table, targets: seq<TableRow>,
                          assigns: seq<Assignment>) returns (replacements: seq<Row>)
    requires table.Valid() && Distinct(targets) && (forall r :: r in targets ==> RowOf(table.heap, r))
    requires AssignmentsOk(assigns, table.schema)
    ensures Replacements(targets, replacements, table.schema, table.heap)
    ensures forall i :: 0 <= i < |targets| ==> replacements[i] == Assigned(targets[i].values, assigns)
  {
    hide RowFits, Agree;
    replacements := [];
    for i := 0 to |targets|
      invariant |replacements| == i
      invariant forall k :: 0 <= k < i ==>
                  replacements[k] == Assigned(targets[k].values, assigns) && RowFits(table.schema, replacements[k])
    {
      assert targets[i] in targets;
      AssignedFits(targets[i].values, assigns, table.schema);
      var values := targets[i].values;
      for j := 0 to |assigns|
        invariant values == Assigned(targets[i].values, assigns[..j])
      {
        assert assigns[..j + 1][..j] == assigns[..j];
        if assigns[j].column < |values| {
          values := values[assigns[j].column := assigns[j].value];
        }
      }
      assert assigns[..|assigns|] == assigns;
      replacements := replacements + [values];
    }
  }

  /** Row by row, none of the replacements that passed the check collides. */
  method ApplyUpdates(table: Table, targets: seq<TableRow>, replacements: seq<Row>, ghost where: Option<Expression>,
                      ghost assigns: seq<Assignment>)
    returns (ghost moved: map<Rid, Rid>)
    requires table.Valid() && AssignmentsOk(assigns, table.schema) && Matches(targets, table.heap, where, table.schema)
    requires Replacements(targets, replacements, table.schema, table.heap)
    requires forall i :: 0 <= i < |targets| ==> replacements[i] == Assigned(targets[i].values, assigns)
    requires HeapOk(table.schema, AfterAll(where, table.schema, assigns, table.heap))
    requires UniqueKeys(table.schema, AfterAll(where, table.schema, assigns, table.heap))
    modifies table
    ensures table.Valid()
    ensures Underway(old(table.heap), table.heap, moved, AfterAll(where, table.schema, assigns, old(table.heap)))
  {
    hide TableOk, HeapOk, Underway, KeyOf, RowFits, Selects, Assigned, UniqueKeys, AssignmentsOk, KeyFree, Turn,
         Matches, AfterAll;
    ghost var heap0, index0, schema := table.heap, table.index, table.schema;
    moved := map r | r in heap0 :: r;
    ghost var now: map<Rid, Row> := heap0;
    Starts(heap0);
    TurnStart(targets, replacements, where, assigns, schema, heap0);
    for i := 0 to |targets|
      invariant table.Valid() && Underway(heap0, table.heap, moved, now)
      invariant Turn(targets, replacements, where, assigns, schema, heap0, now, moved, i)
    {
      var t := targets[i].rid;
      TurnAt(targets, replacements, where, assigns, schema, heap0, now, moved, i);
      FreeHere(table, heap0, index0, where, assigns, now, moved, t);
      ghost var before := table.heap;
      var res := table.Update(t, replacements[i]);
      Moves(heap0, before, moved, now, t, res.value, replacements[i]);
      TurnStep(targets, replacements, where, assigns, schema, heap0, now, moved, i, res.value);
      moved := moved[t := res.value];
      now := now[t := replacements[i]];
    }
    TurnEnd(targets, replacements, where, assigns, schema, heap0, now, moved);
  }

  /** How far row-by-row replacement has come. */
  ghost predicate Turn(targets: seq<TableRow>, replacements: seq<Row>, where: Option<Expression>,
                       assigns: seq<Assignment>, schema: Schema,
                       heap0: map<Rid, Row>, now: map<Rid, Row>, moved: map<Rid, Rid>, i: nat)
    requires |replacements| == |targets| && i <= |targets|
  {
    && now.Keys == heap0.Keys && moved.Keys == heap0.Keys
    && (forall k :: i <= k < |targets| ==> targets[k].rid in heap0 && moved[targets[k].rid] == targets[k].rid)
    && (forall k :: 0 <= k < i ==> targets[k].rid in heap0 && now[targets[k].rid] == replacements[k])
    && (forall a :: a in heap0 ==> now[a] == heap0[a] || now[a] == After(where, schema, assigns, heap0[a]))
    && (forall a :: a in heap0 && !IsTarget(targets, a) ==> now[a] == heap0[a])
  }

  lemma TurnStart(targets: seq<TableRow>, replacements: seq<Row>, where: Option<Expression>, assigns: seq<Assignment>,
                  schema: Schema,
                  heap0: map<Rid, Row>)
    requires Matches(targets, heap0, where, schema) && |replacements| == |targets|
    ensures Turn(targets, replacements, where, assigns, schema, heap0, heap0, map r | r in heap0 :: r, 0)
  {
    hide Selects, Assigned;
    forall k | 0 <= k < |targets| ensures targets[k].rid in heap0 {
      assert targets[k] in targets;
    }
  }

  lemma TurnAt(targets: seq<TableRow>, replacements: seq<Row>, where: Option<Expression>, assigns: seq<Assignment>,
               schema: Schema,
               heap0: map<Rid, Row>, now: map<Rid, Row>, moved: map<Rid, Rid>, i: nat)
    requires Matches(targets, heap0, where, schema) && |replacements| == |targets| && i < |targets|
    requires Turn(targets, replacements, where, assigns, schema, heap0, now, moved, i)
    requires replacements[i] == Assigned(targets[i].values, assigns)
    ensures var t := targets[i].rid;
            && t in heap0 && now.Keys == moved.Keys == heap0.Keys && moved[t] == t && Selects(where, schema, heap0[t])
            && replacements[i] == Assigned(heap0[t], assigns)
    ensures forall a :: a in heap0 ==>
              a in now && (now[a] == heap0[a] || now[a] == After(where, schema, assigns, heap0[a]))
  {
    hide Selects, Assigned;
    assert targets[i] in targets;
  }

  lemma TurnStep(targets: seq<TableRow>, replacements: seq<Row>, where: Option<Expression>, assigns: seq<Assignment>,
                 schema: Schema,
                 heap0: map<Rid, Row>, now: map<Rid, Row>, moved: map<Rid, Rid>, i: nat, target: Rid)
    requires Matches(targets, heap0, where, schema) && |replacements| == |targets| && i < |targets|
    requires Turn(targets, replacements, where, assigns, schema, heap0, now, moved, i)
    requires replacements[i] == Assigned(targets[i].values, assigns)
    ensures Turn(targets, replacements, where, assigns, schema, heap0, now[targets[i].rid := replacements[i]],
                 moved[targets[i].rid := target], i + 1)
  {
    hide Selects, Assigned, Matches, IsTarget, After;
    var t := targets[i].rid;
    TargetFacts(targets, where, assigns, schema, heap0, i);
    var now', moved' := now[t := replacements[i]], moved[t := target];
    assert now'.Keys == heap0.Keys && moved'.Keys == heap0.Keys;
    forall k | i + 1 <= k < |targets| ensures targets[k].rid in heap0 && moved'[targets[k].rid] == targets[k].rid {
      assert targets[k].rid != t;
    }
    forall k | 0 <= k < i + 1 ensures targets[k].rid in heap0 && now'[targets[k].rid] == replacements[k] {
      assert k < i ==> targets[k].rid != t;
    }
  }

  lemma TargetFacts(targets: seq<TableRow>, where: Option<Expression>, assigns: seq<Assignment>, schema: Schema,
                    heap0: map<Rid, Row>, i: nat)
    requires Matches(targets, heap0, where, schema) && i < |targets|
    ensures var t := targets[i].rid;
            && t in heap0 && IsTarget(targets, t)
            && Assigned(targets[i].values, assigns) == After(where, schema, assigns, heap0[t])
    ensures forall k :: 0 <= k < |targets| && k != i ==> targets[k].rid != targets[i].rid
  {
    hide Selects, Assigned;
    assert targets[i] in targets;
  }

  lemma TurnEnd(targets: seq<TableRow>, replacements: seq<Row>, where: Option<Expression>, assigns: seq<Assignment>,
                schema: Schema,
                heap0: map<Rid, Row>, now: map<Rid, Row>, moved: map<Rid, Rid>)
    requires Matches(targets, heap0, where, schema) && |replacements| == |targets|
    requires Turn(targets, replacements, where, assigns, schema, heap0, now, moved, |targets|)
    requires forall i :: 0 <= i < |targets| ==> replacements[i] == Assigned(targets[i].values, assigns)
    ensures now == AfterAll(where, schema, assigns, heap0)
  {
    hide Selects, Assigned;
    forall a | a in heap0 ensures now[a] == After(where, schema, assigns, heap0[a]) {
      if IsTarget(targets, a) {
        var k :| 0 <= k < |targets| && targets[k].rid == a;
        assert targets[k] in targets;
      } else {
        Untouched(targets, heap0, where, schema, a);
      }
    }
  }

  lemma FreeHere(table: Table, heap0: map<Rid, Row>, index0: map<int, Rid>, where: Option<Expression>,
                 assigns: seq<Assignment>,
                 now: map<Rid, Row>, moved: map<Rid, Rid>, t: Rid)
    requires table.Valid() && TableOk(table.schema, heap0, index0) && AssignmentsOk(assigns, table.schema)
    requires HeapOk(table.schema, AfterAll(where, table.schema, assigns, heap0))
    requires UniqueKeys(table.schema, AfterAll(where, table.schema, assigns, heap0))
    requires Underway(heap0, table.heap, moved, now) && t in heap0 && moved[t] == t
    requires Selects(where, table.schema, heap0[t])
    requires forall a :: a in heap0 ==>
               a in now && (now[a] == heap0[a] || now[a] == After(where, table.schema, assigns, heap0[a]))
    ensures t in table.heap && HeapOk(table.schema, table.heap) && RowFits(table.schema, Assigned(heap0[t], assigns))
    ensures KeyFree(table.schema, table.heap, t, Assigned(heap0[t], assigns))
  {
    hide KeyOf, RowFits, Selects, Assigned, AssignmentsOk, UniqueKeys, Agree;
    var row := Assigned(heap0[t], assigns);
    AssignedFits(heap0[t], assigns, table.schema);
    if table.Keyed() {
      forall r | r in table.heap && r != t ensures KeyOf(table.schema, table.heap[r]) != KeyOf(table.schema, row) {
        var a :| a in heap0 && moved[a] == r;
        NoCollision(table.schema, heap0, index0, where, assigns, now, t, a);
      }
    }
  }

  /** UPDATE is all or nothing: it is refused, with nothing changed, exactly when it does not bind or two rows
      of the result would share a primary key; otherwise every selected row has its columns assigned and every
      other row is as it was, up to moved record ids. */
  method ExecuteUpdate(table: Table, sets: seq<(string, Literal)>, where: Option<Expression>)
    returns (res: Result<nat>, ghost assigns: Option<seq<Assignment>>, ghost moved: map<Rid, Rid>)
    requires table.Valid() && (where.Some? ==> ExpressionOk(where.value))
    requires forall k :: 0 <= k < |sets| ==> LiteralOk(sets[k].1)
    modifies table
    ensures table.Valid()
    ensures res.Err? ==> table.heap == old(table.heap) && table.index == old(table.index)
    ensures assigns.Some? <==> AssignmentsBind(sets, table.schema) && WhereBinds(where, table.schema)
    ensures res.Ok? ==> res.value == |Selected(old(table.heap), where, table.schema)|
    ensures assigns.Some? ==>
              && AssignmentsOk(assigns.value, table.schema) && |assigns.value| == |sets|
              && (forall k :: 0 <= k < |sets| ==>
                    && FindColumn(table.schema, sets[k].0) == Some(assigns.value[k].column)
                    && Denotes(sets[k].1, assigns.value[k].value))
              && HeapOk(table.schema, AfterAll(where, table.schema, assigns.value, old(table.heap)))
              && (res.Ok? <==> UniqueKeys(table.schema, AfterAll(where, table.schema, assigns.value, old(table.heap))))
    ensures res.Ok? ==>
              assigns.Some? && Underway(old(table.heap), table.heap, moved,
                                        AfterAll(where, table.schema, assigns.value, old(table.heap)))
  {
    hide TableOk, Underway, RowFits, Selects, Assigned, UniqueKeys, Matches, Replacements, KeysFree, AssignmentsBind,
         WhereBinds;
    assigns, moved := None, map[];
    var bound := BindAssignments(sets, table.schema);
    if bound.Err? {
      return Err(bound.error), assigns, moved;
    }
    var clause := BindWhere(where, table.schema);
    if clause.Err? {
      return Err(clause.error), assigns, moved;
    }
    assigns := Some(bound.value);
    var targets := MatchingRows(table, clause.value, where);
    MatchedRows(table, targets, where);
    var replacements := MakeReplacements(table, targets, bound.value);
    var ok := PrevalidateKeys(table, targets, replacements);
    CheckExact(table, targets, replacements, where, bound.value);
    if !ok {
      return Err(Constraint), assigns, moved;
    }
    MatchCount(targets, table.heap, where, table.schema);
    moved := ApplyUpdates(table, targets, replacements, where, bound.value);
    res := Ok(|targets|);
  }

  lemma MatchedRows(table: Table, targets: seq<TableRow>, where: Option<Expression>)
    requires Matches(targets, table.heap, where, table.schema)
    ensures Distinct(targets) && forall r :: r in targets ==> RowOf(table.heap, r)
  {
  }

  lemma CheckExact(table: Table, targets: seq<TableRow>, replacements: seq<Row>, where: Option<Expression>,
                   assigns: seq<Assignment>)
    requires table.Valid() && AssignmentsOk(assigns, table.schema)
    requires Matches(targets, table.heap, where, table.schema)
    requires Replacements(targets, replacements, table.schema, table.heap)
    requires forall i :: 0 <= i < |targets| ==> replacements[i] == Assigned(targets[i].values, assigns)
    ensures HeapOk(table.schema, table.heap) && HeapOk(table.schema, AfterAll(where, table.schema, assigns, table.heap))
    ensures (table.Keyed() ==> KeysFree(targets, replacements, table.schema, table.heap)) <==>
            UniqueKeys(table.schema, AfterAll(where, table.schema, assigns, table.heap))
  {
    hide Agree, RowFits, Selects, Assigned, KeysFree;
    AfterFits(where, table.schema, assigns, table.heap);
    if table.Keyed() {
      PrevalidationExact(targets, replacements, where, assigns, table.schema, table.heap, table.index);
    }
  }
}
