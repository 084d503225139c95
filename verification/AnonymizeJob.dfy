/**
 * anonymizeTable over a whole table: the rows in scope are read once, the
 * bulk update runs, each row is checked against what was first read, and
 * apply reads again to count what is left
 * (apps/api/src/cli/anonymize-titular.ts:555-594, 619-633, 646-710).
 */
module AnonymizeJob {
  import opened Options
  import opened FieldCipher
  import opened AnonymizePlan
  import opened AnonymizeTable

  datatype Report = Report(selected: nat, changed: nat, residual: nat)

  // ---- What the table holds and counts ------------------------------------------------------

  ghost predicate UniqueIds(rows: seq<Row>) {
    forall i, j :: 0 <= i < j < |rows| ==> rows[i].id != rows[j].id
  }

  function InScope(rows: seq<Row>, ids: seq<string>): (found: seq<Row>)
    ensures forall r :: r in found <==> r in rows && r.id in ids
  {
    if rows == [] then []
    else
      var last := rows[|rows| - 1];
      assert rows == rows[..|rows| - 1] + [last];
      InScope(rows[..|rows| - 1], ids) + (if last.id in ids then [last] else [])
  }

  lemma {:induction false} InScopeUnique(rows: seq<Row>, ids: seq<string>)
    requires UniqueIds(rows)
    ensures UniqueIds(InScope(rows, ids))
  {
    if rows != [] {
      InScopeUnique(rows[..|rows| - 1], ids);
    }
  }

  predicate Residual(env: Env, row: Row, f: PlannedField) {
    !EqualExpected(env, Cell(row, f.column), ExpectedForRow(f, row.id), row.id)
  }

  function RowResidual(env: Env, row: Row, fields: seq<PlannedField>): nat {
    if fields == [] then 0
    else RowResidual(env, row, fields[..|fields| - 1]) + (if Residual(env, row, fields[|fields| - 1]) then 1 else 0)
  }

  function TotalResidual(env: Env, rows: seq<Row>, fields: seq<PlannedField>): nat {
    if rows == [] then 0
    else TotalResidual(env, rows[..|rows| - 1], fields) + RowResidual(env, rows[|rows| - 1], fields)
  }

  lemma {:induction false} RowResidualZero(env: Env, row: Row, fields: seq<PlannedField>)
    ensures RowResidual(env, row, fields) == 0 <==> forall f :: f in fields ==> !Residual(env, row, f)
  {
    if fields != [] {
      RowResidualZero(env, row, fields[..|fields| - 1]);
      assert fields == fields[..|fields| - 1] + [fields[|fields| - 1]];
    }
  }

  lemma {:induction false} TotalResidualZero(env: Env, rows: seq<Row>, fields: seq<PlannedField>)
    ensures TotalResidual(env, rows, fields) == 0 <==> forall r :: r in rows ==> RowResidual(env, r, fields) == 0
  {
    if rows != [] {
      var front, last := rows[..|rows| - 1], rows[|rows| - 1];
      TotalResidualZero(env, front, fields);
      assert rows == front + [last];
      assert last in rows;
      forall r | r in front ensures r in rows {
      }
    }
  }

  ghost predicate ShapedTable(rows: seq<Row>, ids: seq<string>, fields: seq<PlannedField>) {
    forall r :: r in rows && r.id in ids ==> Shaped(r, fields)
  }

  ghost function RowAfter(env: Env, row: Row, ids: seq<string>, fields: seq<PlannedField>, touches: bool): Row {
    if row.id in ids then Anonymized(env, row, fields, touches) else row
  }

  /** The table after apply. */
  ghost function AfterApply(env: Env, rows: seq<Row>, ids: seq<string>, fields: seq<PlannedField>,
                            touches: bool): seq<Row> {
    seq(|rows|, (k: int) requires 0 <= k < |rows| => RowAfter(env, rows[k], ids, fields, touches))
  }

  ghost function ChangedIds(env: Env, rows: seq<Row>, ids: seq<string>, fields: seq<PlannedField>): set<string> {
    set r | r in rows && r.id in ids && Changes(env, r, fields) :: r.id
  }

  ghost function DirtyIds(env: Env, rows: seq<Row>, ids: seq<string>, fixed: seq<PlannedField>): set<string> {
    set r | r in rows && r.id in ids && Dirty(env, r, fixed) :: r.id
  }

  ghost predicate WritesSome(env: Env, row: Row, fields: seq<PlannedField>) {
    exists f :: f in fields && Writes(env, row, f)
  }

  // ---- The table and its statements -------------------------------------------------------------

  ghost function BulkAll(env: Env, rows: seq<Row>, ids: seq<string>, fixed: seq<PlannedField>,
                         touches: bool): seq<Row> {
    seq(|rows|, (k: int) requires 0 <= k < |rows| =>
      if rows[k].id in ids then BulkRow(env, rows[k], fixed, touches) else rows[k])
  }

  ghost function StepAll(env: Env, rows: seq<Row>, snapshot: Row, fields: seq<PlannedField>, touches: bool): seq<Row> {
    seq(|rows|, (k: int) requires 0 <= k < |rows| =>
      if rows[k].id == snapshot.id then FieldSteps(env, snapshot, rows[k], fields, touches) else rows[k])
  }

  ghost predicate Differs(rows: seq<Row>, key: string, column: string, v: Value) {
    exists k :: 0 <= k < |rows| && rows[k].id == key && Cell(rows[k], column) != v
  }

  class Table {
    var rows: seq<Row>

    method ReadRows(ids: seq<string>, fields: seq<PlannedField>) returns (found: seq<Row>)
      ensures found == if ids == [] || fields == [] then [] else InScope(rows, ids)
    {
      if ids == [] || fields == [] {
        return [];
      }
      found := InScope(rows, ids);
    }

    /** UPDATE ... WHERE id = ANY(ids) AND (column IS DISTINCT FROM value OR ...) RETURNING id */
    method UpdateFixedFields(env: Env, ids: seq<string>, fixed: seq<PlannedField>, touches: bool)
      returns (changed: set<string>)
      modifies this
      ensures rows == BulkAll(env, old(rows), ids, fixed, touches)
      ensures changed == DirtyIds(env, old(rows), ids, fixed)
    {
      changed := {};
      if ids == [] || fixed == [] {
        return;
      }
      var k := 0;
      while k < |rows|
        invariant k <= |rows| == |old(rows)|
        invariant rows[k..] == old(rows)[k..]
        invariant rows[..k] == BulkAll(env, old(rows)[..k], ids, fixed, touches)
        invariant changed == DirtyIds(env, old(rows)[..k], ids, fixed)
      {
        var row := rows[k];
        assert row == old(rows)[k] && old(rows)[..k + 1] == old(rows)[..k] + [row];
        if row.id in ids && Dirty(env, row, fixed) {
          rows := rows[k := BulkRow(env, row, fixed, touches)];
          changed := changed + {row.id};
        }
        k := k + 1;
      }
      assert old(rows)[..k] == old(rows) && rows[..k] == rows;
    }

    /** UPDATE ... SET column = value WHERE id = key AND column IS DISTINCT FROM value RETURNING id */
    method UpdateField(key: string, column: string, v: Value, touches: bool, clock: int) returns (updated: bool)
      modifies this
      ensures |rows| == |old(rows)|
      ensures forall k :: 0 <= k < |rows| ==>
                rows[k] == if old(rows)[k].id == key && Cell(old(rows)[k], column) != v
                           then SetCell(old(rows)[k], column, v, touches, clock) else old(rows)[k]
      ensures updated <==> Differs(old(rows), key, column, v)
    {
      updated := false;
      var k := 0;
      while k < |rows|
        invariant k <= |rows| == |old(rows)|
        invariant forall j :: k <= j < |rows| ==> rows[j] == old(rows)[j]
        invariant forall j :: 0 <= j < k ==>
                    rows[j] == if old(rows)[j].id == key && Cell(old(rows)[j], column) != v
                               then SetCell(old(rows)[j], column, v, touches, clock) else old(rows)[j]
        invariant updated <==> exists j :: 0 <= j < k && old(rows)[j].id == key && Cell(old(rows)[j], column) != v
      {
        if rows[k].id == key && Cell(rows[k], column) != v {
          rows := rows[k := SetCell(rows[k], column, v, touches, clock)];
          updated := true;
        }
        k := k + 1;
      }
    }

    /** One field of one row in apply: count it, and write a per-row field that does not count. */
    method AnonymizeField(env: Env, snapshot: Row, f: PlannedField, touches: bool)
      returns (residual: bool, updated: bool)
      modifies this
      ensures |rows| == |old(rows)|
      ensures forall k :: 0 <= k < |rows| ==>
                rows[k] == if old(rows)[k].id == snapshot.id then FieldStep(env, snapshot, old(rows)[k], f, touches)
                           else old(rows)[k]
      ensures residual == Residual(env, snapshot, f)
      ensures updated <==>
                Writes(env, snapshot, f)
                && Differs(old(rows), snapshot.id, f.column, NextValue(env, snapshot.id, f))
    {
      residual, updated := false, false;
      var expected := ExpectedForRow(f, snapshot.id);
      if !EqualExpected(env, Cell(snapshot, f.column), expected, snapshot.id) {
        residual := true;
        if expected.EEncryptedMarker? || expected.ELegacyHash? {
          var next := SqlValue(env, expected, snapshot.id, f.column);
          updated := UpdateField(snapshot.id, f.column, next, touches, env.clock(snapshot.id, f.column));
        }
      }
    }

    /** One turn of that loop. */
    method AnonymizeNext(env: Env, snapshot: Row, fields: seq<PlannedField>, touches: bool, j: nat, ghost at: nat,
                         ghost rows0: seq<Row>)
      returns (pending: bool, updated: bool)
      requires Lawful(env.cipher) && DistinctFields(fields) && j < |fields|
      requires at < |rows0| && rows0[at].id == snapshot.id && Shaped(rows0[at], fields)
      requires forall f :: f in fields && PerRow(f) ==> Cell(rows0[at], f.column) == Cell(snapshot, f.column)
      requires rows == StepAll(env, rows0, snapshot, fields[..j], touches)
      modifies this
      ensures rows == StepAll(env, rows0, snapshot, fields[..j + 1], touches)
      ensures pending == Residual(env, snapshot, fields[j]) && updated == Writes(env, snapshot, fields[j])
    {
      ghost var before := rows;
      pending, updated := AnonymizeField(env, snapshot, fields[j], touches);
      PendingDiffers(env, rows0, snapshot, at, fields, j, touches, before);
      StepAllNext(env, rows0, snapshot, fields, j, touches, before, rows);
    }

    /** The inner loop of one row in apply; `at` is where the row stands. */
    method AnonymizeRow(env: Env, snapshot: Row, fields: seq<PlannedField>, touches: bool, ghost at: nat)
      returns (residual: nat, changed: bool)
      requires Lawful(env.cipher) && DistinctFields(fields)
      requires at < |rows| && rows[at].id == snapshot.id && Shaped(rows[at], fields)
      requires forall f :: f in fields && PerRow(f) ==> Cell(rows[at], f.column) == Cell(snapshot, f.column)
      modifies this
      ensures rows == StepAll(env, old(rows), snapshot, fields, touches)
      ensures residual == RowResidual(env, snapshot, fields)
      ensures changed <==> WritesSome(env, snapshot, fields)
    {
      residual, changed := 0, false;
      var j := 0;
      while j < |fields|
        invariant j <= |fields|
        invariant rows == StepAll(env, old(rows), snapshot, fields[..j], touches)
        invariant residual == RowResidual(env, snapshot, fields[..j])
        invariant changed <==> WritesSome(env, snapshot, fields[..j])
      {
        FieldCounted(env, snapshot, fields, j);
        var pending, updated := AnonymizeNext(env, snapshot, fields, touches, j, at, old(rows));
        residual := residual + (if pending then 1 else 0);
        changed := changed || updated;
        j := j + 1;
      }
      assert fields[..j] == fields;
    }

    /**
     * The job on one table. Apply leaves no residual field, changes exactly
     * the rows in scope that need it, and nothing else; dry-run only counts.
     */
    method AnonymizeTable(table: string, ids: seq<string>, columns: Columns, rules: seq<FieldRule>, env: Env,
                          mode: Mode)
      returns (report: Option<Report>)
      requires Lawful(env.cipher) && ProperRules(table, rules) && UniqueIds(rows)
      requires forall r :: r in rows ==> columns.Keys <= r.cells.Keys
      modifies this
      ensures Skipped(ids, columns) ==> report == Some(Report(0, 0, 0)) && rows == old(rows)
      ensures !Skipped(ids, columns) ==> (report.None? <==> PlanTable(table, rules, columns, true).None?)
      ensures report.None? || mode.DryRun? ==> rows == old(rows)
      ensures report.Some? && !Skipped(ids, columns) ==>
                Reported(env, old(rows), ids, PlanTable(table, rules, columns, true).value, mode, report.value)
      ensures report.Some? && !Skipped(ids, columns) && mode.Apply? ==>
                rows == AfterApply(env, old(rows), ids, PlanTable(table, rules, columns, true).value,
                                   "updated_at" in columns)
    {
      if ids == [] || columns == map[] {
        return Some(Report(0, 0, 0));
      }
      var plan := PlanTable(table, rules, columns, true);
      if plan.None? {
        return None;
      }
      var fields, touches := plan.value, "updated_at" in columns;
      PlanDistinct(table, rules, columns, true);
      var currentRows := ReadRows(ids, fields);
      if mode.DryRun? {
        var residual := CountResidual(env, currentRows, fields);
        return Some(Report(|currentRows|, 0, residual));
      }
      var changedIds := ApplyFields(env, ids, currentRows, fields, touches);
      var after := ReadRows(ids, fields);
      var residual := CountResidual(env, after, fields);
      NoResidualAfter(env, old(rows), ids, fields, touches);
      return Some(Report(|currentRows|, |changedIds|, residual));
    }

    /** One turn of the loop over the rows that were read. */
    method ApplyToRow(env: Env, ghost ids: seq<string>, currentRows: seq<Row>, fields: seq<PlannedField>, touches: bool,
                      i: nat, before: set<string>, ghost rows0: seq<Row>)
      returns (changedIds: set<string>)
      requires Lawful(env.cipher) && DistinctFields(fields)
      requires Reading(rows0, ids, currentRows, fields) && i < |currentRows|
      requires rows == Halfway(env, rows0, ids, currentRows[..i], fields, touches)
      requires before == HalfChanged(env, rows0, ids, currentRows[..i], fields)
      modifies this
      ensures rows == Halfway(env, rows0, ids, currentRows[..i + 1], fields, touches)
      ensures changedIds == HalfChanged(env, rows0, ids, currentRows[..i + 1], fields)
    {
      var snapshot := currentRows[i];
      ghost var at := RowOf(env, rows0, ids, currentRows, i, fields, touches);
      var residual, changed := AnonymizeRow(env, snapshot, fields, touches, at);
      HalfwayNext(env, rows0, ids, currentRows, i, fields, touches, old(rows), rows);
      changedIds := if changed then before + {snapshot.id} else before;
    }

    /** The bulk update followed by the loop over the rows that were read. */
    method ApplyFields(env: Env, ids: seq<string>, currentRows: seq<Row>, fields: seq<PlannedField>, touches: bool)
      returns (changedIds: set<string>)
      requires Lawful(env.cipher) && DistinctFields(fields) && UniqueIds(rows) && ShapedTable(rows, ids, fields)
      requires currentRows == if ids == [] || fields == [] then [] else InScope(rows, ids)
      modifies this
      ensures rows == AfterApply(env, old(rows), ids, fields, touches)
      ensures changedIds == ChangedIds(env, old(rows), ids, fields)
    {
      changedIds := UpdateFixedFields(env, ids, Fixed(fields), touches);
      ghost var rows0 := old(rows);
      ReadingScope(rows0, ids, currentRows, fields);
      HalfwayStart(env, rows0, ids, fields, touches);
      assert currentRows[..0] == [];
      var i := 0;
      while i < |currentRows|
        invariant i <= |currentRows|
        invariant rows == Halfway(env, rows0, ids, currentRows[..i], fields, touches)
        invariant changedIds == HalfChanged(env, rows0, ids, currentRows[..i], fields)
      {
        changedIds := ApplyToRow(env, ids, currentRows, fields, touches, i, changedIds, rows0);
        i := i + 1;
      }
      assert currentRows[..i] == currentRows;
      HalfwayEnd(env, rows0, ids, currentRows, fields, touches);
    }
  }

  /** The counting loops over rows and fields. */
  method CountResidual(env: Env, found: seq<Row>, fields: seq<PlannedField>) returns (residual: nat)
    ensures residual == TotalResidual(env, found, fields)
  {
    residual := 0;
    var i := 0;
    while i < |found|
      invariant i <= |found| && residual == TotalResidual(env, found[..i], fields)
    {
      var row, j := found[i], 0;
      ghost var before := residual;
      while j < |fields|
        invariant j <= |fields| && residual == before + RowResidual(env, row, fields[..j])
      {
        assert fields[..j + 1][..j] == fields[..j];
        if !EqualExpected(env, Cell(row, fields[j].column), ExpectedForRow(fields[j], row.id), row.id) {
          residual := residual + 1;
        }
        j := j + 1;
      }
      assert fields[..j] == fields && found[..i + 1][..i] == found[..i];
      i := i + 1;
    }
    assert found[..i] == found;
  }

  predicate Skipped(ids: seq<string>, columns: Columns) {
    ids == [] || columns == map[]
  }

  ghost predicate Reported(env: Env, rows0: seq<Row>, ids: seq<string>, fields: seq<PlannedField>, mode: Mode,
                           report: Report) {
    var scope := if fields == [] then [] else InScope(rows0, ids);
    && report.selected == |scope|
    && report.changed == (if mode.Apply? then |ChangedIds(env, rows0, ids, fields)| else 0)
    && report.residual == if mode.Apply? then 0 else TotalResidual(env, scope, fields)
  }

  // ---- Steps of the proof -----------------------------------------------------------------------

  /** The rows already looped over are finished, the others in scope only bulk-updated. */
  ghost function HalfRow(env: Env, row: Row, ids: seq<string>, done: seq<Row>, fields: seq<PlannedField>,
                         touches: bool): Row {
    if row.id !in ids then row
    else if row in done then Anonymized(env, row, fields, touches)
    else BulkRow(env, row, Fixed(fields), touches)
  }

  ghost function Halfway(env: Env, rows0: seq<Row>, ids: seq<string>, done: seq<Row>, fields: seq<PlannedField>,
                         touches: bool): seq<Row> {
    seq(|rows0|, (k: int) requires 0 <= k < |rows0| => HalfRow(env, rows0[k], ids, done, fields, touches))
  }

  ghost function HalfChanged(env: Env, rows0: seq<Row>, ids: seq<string>, done: seq<Row>,
                             fields: seq<PlannedField>): set<string> {
    DirtyIds(env, rows0, ids, Fixed(fields)) + set r | r in done && WritesSome(env, r, fields) :: r.id
  }

  lemma HalfRowId(env: Env, row: Row, ids: seq<string>, done: seq<Row>, fields: seq<PlannedField>, touches: bool)
    ensures HalfRow(env, row, ids, done, fields, touches).id == row.id
  {
    StepsKeepId(env, row, BulkRow(env, row, Fixed(fields), touches), fields, touches);
  }

  ghost predicate Reading(rows0: seq<Row>, ids: seq<string>, currentRows: seq<Row>, fields: seq<PlannedField>) {
    && UniqueIds(rows0) && UniqueIds(currentRows) && ShapedTable(rows0, ids, fields)
    && forall r :: r in currentRows ==> r in rows0 && r.id in ids
  }

  /** Where the row to be treated stands, and that its per-row fields are still as read. */
  lemma RowOf(env: Env, rows0: seq<Row>, ids: seq<string>, currentRows: seq<Row>, i: nat, fields: seq<PlannedField>,
              touches: bool)
    returns (at: nat)
    requires DistinctFields(fields) && Reading(rows0, ids, currentRows, fields) && i < |currentRows|
    ensures at < |rows0| && rows0[at] == currentRows[i]
    ensures var now := Halfway(env, rows0, ids, currentRows[..i], fields, touches)[at];
            && now == BulkRow(env, currentRows[i], Fixed(fields), touches)
            && now.id == currentRows[i].id && Shaped(now, fields)
            && forall f :: f in fields && PerRow(f) ==> Cell(now, f.column) == Cell(currentRows[i], f.column)
  {
    assert currentRows[i] in currentRows;
    at :| 0 <= at < |rows0| && rows0[at] == currentRows[i];
    BulkLeavesPerRow(env, currentRows[i], fields, touches);
  }

  lemma HalfwayNext(env: Env, rows0: seq<Row>, ids: seq<string>, currentRows: seq<Row>, i: nat,
                    fields: seq<PlannedField>, touches: bool, before: seq<Row>, after: seq<Row>)
    requires Reading(rows0, ids, currentRows, fields) && i < |currentRows|
    requires before == Halfway(env, rows0, ids, currentRows[..i], fields, touches)
    requires after == StepAll(env, before, currentRows[i], fields, touches)
    ensures after == Halfway(env, rows0, ids, currentRows[..i + 1], fields, touches)
    ensures HalfChanged(env, rows0, ids, currentRows[..i + 1], fields)
         == HalfChanged(env, rows0, ids, currentRows[..i], fields)
          + if WritesSome(env, currentRows[i], fields) then {currentRows[i].id} else {}
  {
    var row := currentRows[i];
    assert currentRows[..i + 1] == currentRows[..i] + [row];
    assert row in currentRows;
    forall k | 0 <= k < |rows0|
      ensures after[k] == HalfRow(env, rows0[k], ids, currentRows[..i + 1], fields, touches)
    {
      HalfRowId(env, rows0[k], ids, currentRows[..i], fields, touches);
      if rows0[k].id == row.id {
        assert rows0[k] == row;
        assert row !in currentRows[..i];
      }
    }
  }

  lemma HalfwayStart(env: Env, rows0: seq<Row>, ids: seq<string>, fields: seq<PlannedField>, touches: bool)
    ensures Halfway(env, rows0, ids, [], fields, touches) == BulkAll(env, rows0, ids, Fixed(fields), touches)
    ensures HalfChanged(env, rows0, ids, [], fields) == DirtyIds(env, rows0, ids, Fixed(fields))
  {
  }

  lemma ReadingScope(rows0: seq<Row>, ids: seq<string>, currentRows: seq<Row>, fields: seq<PlannedField>)
    requires UniqueIds(rows0) && ShapedTable(rows0, ids, fields)
    requires currentRows == if ids == [] || fields == [] then [] else InScope(rows0, ids)
    ensures Reading(rows0, ids, currentRows, fields)
  {
    InScopeUnique(rows0, ids);
  }

  lemma HalfwayEnd(env: Env, rows0: seq<Row>, ids: seq<string>, currentRows: seq<Row>, fields: seq<PlannedField>,
                   touches: bool)
    requires currentRows == if ids == [] || fields == [] then [] else InScope(rows0, ids)
    ensures Halfway(env, rows0, ids, currentRows, fields, touches) == AfterApply(env, rows0, ids, fields, touches)
    ensures HalfChanged(env, rows0, ids, currentRows, fields) == ChangedIds(env, rows0, ids, fields)
  {
    forall k | 0 <= k < |rows0|
      ensures HalfRow(env, rows0[k], ids, currentRows, fields, touches) == RowAfter(env, rows0[k], ids, fields, touches)
    {
      assert rows0[k] in rows0;
    }
  }

  /** No residual field in the whole scope after apply. */
  lemma NoResidualAfter(env: Env, rows0: seq<Row>, ids: seq<string>, fields: seq<PlannedField>, touches: bool)
    requires Lawful(env.cipher) && DistinctFields(fields) && ShapedTable(rows0, ids, fields)
    ensures TotalResidual(env, InScope(AfterApply(env, rows0, ids, fields, touches), ids), fields) == 0
  {
    var rows1 := AfterApply(env, rows0, ids, fields, touches);
    forall r | r in InScope(rows1, ids) ensures RowResidual(env, r, fields) == 0 {
      var k :| 0 <= k < |rows1| && rows1[k] == r;
      var row := rows0[k];
      StepsKeepId(env, row, BulkRow(env, row, Fixed(fields), touches), fields, touches);
      assert row.id == r.id && r == Anonymized(env, row, fields, touches);
      forall f | f in fields ensures !Residual(env, r, f) {
        NothingResidual(env, row, fields, touches, f);
      }
      RowResidualZero(env, r, fields);
    }
    TotalResidualZero(env, InScope(rows1, ids), fields);
  }

  lemma {:induction false} StepsKeepId(env: Env, snapshot: Row, now: Row, fields: seq<PlannedField>, touches: bool)
    ensures FieldSteps(env, snapshot, now, fields, touches).id == now.id
  {
    if fields != [] {
      StepsKeepId(env, snapshot, now, fields[..|fields| - 1], touches);
    }
  }

  /** One more field on every row that carries the id. */
  lemma StepAllNext(env: Env, rows0: seq<Row>, snapshot: Row, fields: seq<PlannedField>, j: nat, touches: bool,
                    before: seq<Row>, after: seq<Row>)
    requires j < |fields| && before == StepAll(env, rows0, snapshot, fields[..j], touches) && |after| == |before|
    requires forall k :: 0 <= k < |before| ==>
               after[k] == if before[k].id == snapshot.id then FieldStep(env, snapshot, before[k], fields[j], touches)
                           else before[k]
    ensures after == StepAll(env, rows0, snapshot, fields[..j + 1], touches)
  {
    assert fields[..j + 1][..j] == fields[..j] && fields[..j + 1][j] == fields[j];
    forall k | 0 <= k < |rows0|
      ensures after[k] == StepAll(env, rows0, snapshot, fields[..j + 1], touches)[k]
    {
      StepsKeepId(env, snapshot, rows0[k], fields[..j], touches);
    }
  }

  /** Before its turn a per-row field that does not count still holds what was first read. */
  lemma PendingValue(env: Env, snapshot: Row, now: Row, fields: seq<PlannedField>, j: nat, touches: bool)
    requires Lawful(env.cipher) && DistinctFields(fields) && j < |fields|
    requires now.id == snapshot.id && Shaped(now, fields) && Writes(env, snapshot, fields[j])
    requires Cell(now, fields[j].column) == Cell(snapshot, fields[j].column)
    ensures var here := FieldSteps(env, snapshot, now, fields[..j], touches);
            here.id == snapshot.id && Cell(here, fields[j].column) != NextValue(env, snapshot.id, fields[j])
  {
    StepsCells(env, snapshot, now, fields[..j], touches);
    WritesDiffer(env, snapshot, fields[j]);
  }

  /** One more field of a row, as the loop counts it. */
  lemma FieldCounted(env: Env, row: Row, fields: seq<PlannedField>, j: nat)
    requires j < |fields|
    ensures RowResidual(env, row, fields[..j + 1])
            == RowResidual(env, row, fields[..j]) + (if Residual(env, row, fields[j]) then 1 else 0)
    ensures WritesSome(env, row, fields[..j + 1])
            <==> WritesSome(env, row, fields[..j]) || Writes(env, row, fields[j])
  {
    assert fields[..j + 1][..j] == fields[..j];
    assert fields[..j + 1] == fields[..j] + [fields[j]];
  }

  /** So some row with its id still differs from the value that is due. */
  lemma PendingDiffers(env: Env, rows0: seq<Row>, snapshot: Row, at: nat, fields: seq<PlannedField>, j: nat,
                       touches: bool, before: seq<Row>)
    requires Lawful(env.cipher) && DistinctFields(fields) && j < |fields|
    requires at < |rows0| && rows0[at].id == snapshot.id && Shaped(rows0[at], fields)
    requires forall f :: f in fields && PerRow(f) ==> Cell(rows0[at], f.column) == Cell(snapshot, f.column)
    requires before == StepAll(env, rows0, snapshot, fields[..j], touches)
    ensures Writes(env, snapshot, fields[j]) ==>
              Differs(before, snapshot.id, fields[j].column, NextValue(env, snapshot.id, fields[j]))
  {
    var f := fields[j];
    if Writes(env, snapshot, f) {
      PendingValue(env, snapshot, rows0[at], fields, j, touches);
      assert before[at].id == snapshot.id && Cell(before[at], f.column) != NextValue(env, snapshot.id, f);
    }
  }

  // ---- Over two runs ----------------------------------------------------------------------------

  /** A second apply finds nothing to change and leaves the table as it is. */
  lemma SecondRunChangesNothing(env: Env, later: Env, rows0: seq<Row>, ids: seq<string>, fields: seq<PlannedField>,
                                touches: bool)
    requires Lawful(env.cipher) && SameKeys(env, later) && DistinctFields(fields) && ShapedTable(rows0, ids, fields)
    ensures var rows1 := AfterApply(env, rows0, ids, fields, touches);
            && AfterApply(later, rows1, ids, fields, touches) == rows1
            && ChangedIds(later, rows1, ids, fields) == {}
  {
    var rows1 := AfterApply(env, rows0, ids, fields, touches);
    forall k | 0 <= k < |rows0|
      ensures RowAfter(later, rows1[k], ids, fields, touches) == rows1[k]
      ensures rows1[k].id in ids ==> !Changes(later, rows1[k], fields)
    {
      var row := rows0[k];
      StepsKeepId(env, row, BulkRow(env, row, Fixed(fields), touches), fields, touches);
      assert row in rows0;
      if row.id in ids {
        SecondApplyChangesNothing(env, later, row, fields, touches);
      }
    }
  }

  /** Rows keep their place and id; rows out of scope keep everything; columns out of plan keep their value. */
  lemma OnlyTheScopeChanges(env: Env, rows0: seq<Row>, ids: seq<string>, fields: seq<PlannedField>, touches: bool,
                            k: nat, c: string)
    requires Lawful(env.cipher) && DistinctFields(fields) && ShapedTable(rows0, ids, fields) && k < |rows0|
    ensures var after := AfterApply(env, rows0, ids, fields, touches)[k];
            && after.id == rows0[k].id
            && (rows0[k].id !in ids || !Changes(env, rows0[k], fields) ==> after == rows0[k])
            && ((forall f :: f in fields ==> f.column != c) ==> Cell(after, c) == Cell(rows0[k], c))
            && (rows0[k].id in ids && Changes(env, rows0[k], fields) && touches ==> Advanced(rows0[k], after))
  {
    assert rows0[k] in rows0;
    if rows0[k].id in ids {
      FinalCells(env, rows0[k], fields, touches);
      ChangeIffTouched(env, rows0[k], fields, touches);
    }
  }

  /** A planned empty-JSON column whose value counts as empty but is not the object that apply writes. */
  ghost predicate OtherEmptyJson(row: Row, fields: seq<PlannedField>) {
    exists f :: f in fields && f.expected.EJsonEmpty? && Cell(row, f.column) != JsonObject(0)
  }

  /** An empty JSON array is no residual, and still apply writes an empty object in its place. */
  lemma EmptyArrayChanges(env: Env)
    ensures var row, fields := Row("1", map["tags" := JsonArray(0)], None), [PlannedField("tags", EJsonEmpty)];
            && RowResidual(env, row, fields) == 0 && Changes(env, row, fields)
            && Cell(Anonymized(env, row, fields, false), "tags") == JsonObject(0)
  {
    var row, f := Row("1", map["tags" := JsonArray(0)], None), PlannedField("tags", EJsonEmpty);
    assert [f][..0] == [];
    assert Fixed([f]) == [f] && f in Fixed([f]) && Distinct(env, row, f);
    var now := BulkRow(env, row, [f], false);
    assert Cell(now, "tags") == JsonObject(0);
    assert FieldSteps(env, row, now, [f], false) == FieldStep(env, row, now, f, false) == now;
  }

  /**
   * What a dry run says about apply: a row with a residual field is changed
   * by apply, and a row without one is changed exactly when an empty-JSON
   * column holds an empty array, or JSON text, in place of an empty object.
   */
  lemma ResidualPredictsChange(env: Env, row: Row, fields: seq<PlannedField>)
    requires Lawful(env.cipher)
    ensures RowResidual(env, row, fields) > 0 ==> Changes(env, row, fields)
    ensures RowResidual(env, row, fields) == 0 ==> (Changes(env, row, fields) <==> OtherEmptyJson(row, fields))
  {
    RowResidualZero(env, row, fields);
    FixedMembers(fields);
    forall f | f in fields && Residual(env, row, f)
      ensures Writes(env, row, f) || (f in Fixed(fields) && Distinct(env, row, f))
    {
      if !PerRow(f) {
        WrittenIsExpected(env, f.expected, "", f.column);
      }
    }
    if RowResidual(env, row, fields) == 0 && OtherEmptyJson(row, fields) {
      var f :| f in fields && f.expected.EJsonEmpty? && Cell(row, f.column) != JsonObject(0);
      assert f in Fixed(fields) && Distinct(env, row, f);
    }
  }
}
