/**
 * anonymizeTable: one bulk update, per-row updates against the rows read
 * before it, and the re-read that counts what is left
 * (apps/api/src/cli/anonymize-titular.ts:555-594, 646-710).
 */
module AnonymizeTable {
  import opened Options
  import opened FieldCipher
  import opened AnonymizePlan

  datatype Mode = DryRun | Apply

  /** `updatedAt` in microseconds; None when it is NULL. */
  datatype Row = Row(id: string, cells: map<string, Value>, updatedAt: Option<int>)

  function Cell(row: Row, column: string): Value {
    if column in row.cells then row.cells[column] else Null
  }

  function Truncate(micros: int): int {
    micros - micros % 1000
  }

  /** GREATEST of the truncated clock and the truncated old value plus one millisecond. */
  function Touch(u: Option<int>, clock: int): Option<int> {
    if u.None? then Some(Truncate(clock))
    else
      var next := Truncate(u.value) + 1000;
      Some(if Truncate(clock) > next then Truncate(clock) else next)
  }

  function SetCell(row: Row, column: string, v: Value, touches: bool, clock: int): Row {
    Row(row.id, row.cells[column := v], if touches then Touch(row.updatedAt, clock) else row.updatedAt)
  }

  /** The fields with one value for all rows, and those with a value per row. */
  function Fixed(fields: seq<PlannedField>): seq<PlannedField> {
    if fields == [] then []
    else Fixed(fields[..|fields| - 1]) + (if PerRow(fields[|fields| - 1]) then [] else [fields[|fields| - 1]])
  }

  predicate Distinct(env: Env, row: Row, f: PlannedField) {
    Cell(row, f.column) != SqlValue(env, f.expected, "", f.column)
  }

  predicate Dirty(env: Env, row: Row, fixed: seq<PlannedField>) {
    exists f :: f in fixed && Distinct(env, row, f)
  }

  function Assign(env: Env, cells: map<string, Value>, fixed: seq<PlannedField>): map<string, Value> {
    if fixed == [] then cells
    else
      var f := fixed[|fixed| - 1];
      Assign(env, cells, fixed[..|fixed| - 1])[f.column := SqlValue(env, f.expected, "", f.column)]
  }

  /** The bulk UPDATE on one row of the scope. */
  function BulkRow(env: Env, row: Row, fixed: seq<PlannedField>, touches: bool): Row {
    if Dirty(env, row, fixed) then
      Row(row.id, Assign(env, row.cells, fixed),
          if touches then Touch(row.updatedAt, env.clock(row.id, "")) else row.updatedAt)
    else row
  }

  /** The check of one field on the row as first read; only a per-row field is then written. */
  predicate Writes(env: Env, snapshot: Row, f: PlannedField) {
    PerRow(f) && !EqualExpected(env, Cell(snapshot, f.column), ExpectedForRow(f, snapshot.id), snapshot.id)
  }

  function NextValue(env: Env, id: string, f: PlannedField): Value {
    SqlValue(env, ExpectedForRow(f, id), id, f.column)
  }

  function FieldStep(env: Env, snapshot: Row, now: Row, f: PlannedField, touches: bool): Row {
    if Writes(env, snapshot, f) && Cell(now, f.column) != NextValue(env, now.id, f) then
      SetCell(now, f.column, NextValue(env, now.id, f), touches, env.clock(now.id, f.column))
    else now
  }

  function FieldSteps(env: Env, snapshot: Row, now: Row, fields: seq<PlannedField>, touches: bool): Row {
    if fields == [] then now
    else FieldStep(env, snapshot, FieldSteps(env, snapshot, now, fields[..|fields| - 1], touches),
                   fields[|fields| - 1], touches)
  }

  /** A row of the scope after apply. */
  function Anonymized(env: Env, row: Row, fields: seq<PlannedField>, touches: bool): Row {
    FieldSteps(env, row, BulkRow(env, row, Fixed(fields), touches), fields, touches)
  }

  /** The planned columns exist in the row. */
  ghost predicate Shaped(row: Row, fields: seq<PlannedField>) {
    forall f :: f in fields ==> f.column in row.cells
  }

  // ---- What one row ends with ------------------------------------------------------------

  lemma {:induction false} FixedMembers(fields: seq<PlannedField>)
    ensures forall f :: f in Fixed(fields) <==> f in fields && !PerRow(f)
  {
    if fields != [] {
      FixedMembers(fields[..|fields| - 1]);
      assert fields == fields[..|fields| - 1] + [fields[|fields| - 1]];
    }
  }

  lemma {:induction false} AssignCells(env: Env, cells: map<string, Value>, fixed: seq<PlannedField>)
    requires forall f, g :: f in fixed && g in fixed && f.column == g.column ==> f == g
    ensures forall f :: f in fixed ==>
              f.column in Assign(env, cells, fixed)
              && Assign(env, cells, fixed)[f.column] == SqlValue(env, f.expected, "", f.column)
    ensures forall c :: (forall f :: f in fixed ==> f.column != c) ==>
              (c in Assign(env, cells, fixed) <==> c in cells)
              && (c in cells ==> Assign(env, cells, fixed)[c] == cells[c])
  {
    if fixed != [] {
      var front, last := fixed[..|fixed| - 1], fixed[|fixed| - 1];
      AssignCells(env, cells, front);
      assert fixed == front + [last];
    }
  }

  lemma OneFieldPerColumn(fields: seq<PlannedField>)
    requires DistinctFields(fields)
    ensures forall f, g :: f in fields && g in fields && f.column == g.column ==> f == g
  {
  }

  /** After the bulk update every fixed field holds its value and every other column its old one. */
  lemma BulkCells(env: Env, row: Row, fields: seq<PlannedField>, touches: bool)
    requires DistinctFields(fields) && Shaped(row, fields)
    ensures var after := BulkRow(env, row, Fixed(fields), touches);
            && after.id == row.id && after.cells.Keys == row.cells.Keys
            && (forall f :: f in fields && !PerRow(f) ==>
                  Cell(after, f.column) == SqlValue(env, f.expected, "", f.column))
            && (forall c :: (forall f :: f in fields && !PerRow(f) ==> f.column != c) ==>
                  Cell(after, c) == Cell(row, c))
  {
    var fixed := Fixed(fields);
    FixedMembers(fields);
    OneFieldPerColumn(fields);
    AssignCells(env, row.cells, fixed);
    var after := BulkRow(env, row, fixed, touches);
    if after != row {
      forall c ensures c in after.cells <==> c in row.cells {
        if f :| f in fixed && f.column == c {
          assert f in fields;
        }
      }
    }
  }

  /** The per-row updates write each of their columns at most once and leave the others alone. */
  lemma {:induction false} StepsCells(env: Env, snapshot: Row, now: Row, fields: seq<PlannedField>, touches: bool)
    requires DistinctFields(fields) && now.id == snapshot.id && Shaped(now, fields)
    ensures var after := FieldSteps(env, snapshot, now, fields, touches);
            && after.id == now.id && after.cells.Keys == now.cells.Keys
            && (forall f :: f in fields ==>
                  Cell(after, f.column)
                  == if Writes(env, snapshot, f) then NextValue(env, now.id, f) else Cell(now, f.column))
            && (forall c :: (forall f :: f in fields ==> f.column != c) ==> Cell(after, c) == Cell(now, c))
  {
    if fields != [] {
      var front, last := fields[..|fields| - 1], fields[|fields| - 1];
      StepsCells(env, snapshot, now, front, touches);
      StepCells(env, snapshot, FieldSteps(env, snapshot, now, front, touches), last, touches);
      assert fields == front + [last];
      assert forall f :: f in front ==> f.column != last.column;
    }
  }

  /** One per-row update. */
  lemma StepCells(env: Env, snapshot: Row, now: Row, f: PlannedField, touches: bool)
    requires f.column in now.cells && now.id == snapshot.id
    ensures var after := FieldStep(env, snapshot, now, f, touches);
            && after.id == now.id && after.cells.Keys == now.cells.Keys
            && Cell(after, f.column)
               == (if Writes(env, snapshot, f) then NextValue(env, now.id, f) else Cell(now, f.column))
            && forall c :: c != f.column ==> Cell(after, c) == Cell(now, c)
  {
  }

  /** Fixed columns get their value, per-row columns only where the old value did not count, other columns nothing. */
  lemma FinalCells(env: Env, row: Row, fields: seq<PlannedField>, touches: bool)
    requires DistinctFields(fields) && Shaped(row, fields)
    ensures var after := Anonymized(env, row, fields, touches);
            && after.id == row.id && after.cells.Keys == row.cells.Keys
            && (forall f :: f in fields ==>
                  Cell(after, f.column) == if !PerRow(f) then SqlValue(env, f.expected, "", f.column)
                                           else if Writes(env, row, f) then NextValue(env, row.id, f)
                                           else Cell(row, f.column))
            && (forall c :: (forall f :: f in fields ==> f.column != c) ==> Cell(after, c) == Cell(row, c))
  {
    OneFieldPerColumn(fields);
    BulkCells(env, row, fields, touches);
    StepsCells(env, row, BulkRow(env, row, Fixed(fields), touches), fields, touches);
  }

  /** No field of an anonymised row counts as residual. */
  lemma NothingResidual(env: Env, row: Row, fields: seq<PlannedField>, touches: bool, f: PlannedField)
    requires Lawful(env.cipher) && DistinctFields(fields) && Shaped(row, fields) && f in fields
    ensures EqualExpected(env, Cell(Anonymized(env, row, fields, touches), f.column), ExpectedForRow(f, row.id), row.id)
  {
    FinalCells(env, row, fields, touches);
    if PerRow(f) {
      WrittenIsExpected(env, ExpectedForRow(f, row.id), row.id, f.column);
    } else {
      WrittenIsExpected(env, f.expected, "", f.column);
    }
  }

  // ---- When a row changes, and its timestamp --------------------------------------------------

  predicate Changes(env: Env, row: Row, fields: seq<PlannedField>) {
    Dirty(env, row, Fixed(fields)) || exists f :: f in fields && Writes(env, row, f)
  }

  ghost predicate Advanced(before: Row, after: Row) {
    before.updatedAt.Some? ==> after.updatedAt.Some? && after.updatedAt.value > before.updatedAt.value
  }

  /** The first whole millisecond that is later than the old timestamp and not before the millisecond of the clock. */
  lemma TouchAdvances(u: Option<int>, clock: int)
    ensures Touch(u, clock).Some? && Touch(u, clock).value % 1000 == 0
    ensures var v := Touch(u, clock).value;
            && (u.Some? ==> v > u.value) && v > clock - 1000
            && forall m: int :: (u.Some? ==> 1000 * m > u.value) && 1000 * m > clock - 1000 ==> v <= 1000 * m
  {
    var v := Touch(u, clock).value;
    forall m: int | (u.Some? ==> 1000 * m > u.value) && 1000 * m > clock - 1000 ensures v <= 1000 * m {
      MillisecondAfter(clock, m);
      if u.Some? {
        MillisecondAfter(u.value + 1000, m);
      }
    }
  }

  lemma MillisecondAfter(micros: int, m: int)
    requires 1000 * m > micros - 1000
    ensures Truncate(micros) <= 1000 * m
  {
  }

  /** A written value differs from what the row held. */
  lemma WritesDiffer(env: Env, row: Row, f: PlannedField)
    requires Lawful(env.cipher) && Writes(env, row, f)
    ensures Cell(row, f.column) != NextValue(env, row.id, f)
  {
    WrittenIsExpected(env, ExpectedForRow(f, row.id), row.id, f.column);
  }

  lemma {:induction false} StepsTime(env: Env, snapshot: Row, now: Row, fields: seq<PlannedField>, touches: bool)
    requires DistinctFields(fields) && now.id == snapshot.id && Shaped(now, fields) && Lawful(env.cipher)
    requires forall f :: f in fields && PerRow(f) ==> Cell(now, f.column) == Cell(snapshot, f.column)
    ensures var after := FieldSteps(env, snapshot, now, fields, touches);
            if exists f :: f in fields && Writes(env, snapshot, f) then touches ==> Advanced(now, after)
            else after == now
  {
    if fields != [] {
      var front, last := fields[..|fields| - 1], fields[|fields| - 1];
      assert fields == front + [last];
      StepsTime(env, snapshot, now, front, touches);
      StepsCells(env, snapshot, now, front, touches);
      assert forall f :: f in front ==> f.column != last.column;
      if Writes(env, snapshot, last) {
        WritesDiffer(env, snapshot, last);
        var before := FieldSteps(env, snapshot, now, front, touches);
        TouchAdvances(before.updatedAt, env.clock(before.id, last.column));
      }
    }
  }

  /**
   * A row changes a stored value exactly when a fixed field is distinct or a
   * per-row field does not count; then updated_at strictly advances, and
   * otherwise the whole row stays as it is.
   */
  lemma ChangeIffTouched(env: Env, row: Row, fields: seq<PlannedField>, touches: bool)
    requires Lawful(env.cipher) && DistinctFields(fields) && Shaped(row, fields)
    ensures var after := Anonymized(env, row, fields, touches);
            && (after.cells != row.cells <==> Changes(env, row, fields))
            && (if Changes(env, row, fields) then touches ==> Advanced(row, after) else after == row)
            && (!touches ==> after.updatedAt == row.updatedAt)
  {
    var fixed := Fixed(fields);
    var bulk := BulkRow(env, row, fixed, touches);
    FinalCells(env, row, fields, touches);
    BulkLeavesPerRow(env, row, fields, touches);
    StepsTime(env, row, bulk, fields, touches);
    TouchAdvances(row.updatedAt, env.clock(row.id, ""));
    ChangedCells(env, row, fields, touches);
    if !touches {
      StepsUntouched(env, row, bulk, fields);
    }
  }

  lemma BulkLeavesPerRow(env: Env, row: Row, fields: seq<PlannedField>, touches: bool)
    requires DistinctFields(fields) && Shaped(row, fields)
    ensures var bulk := BulkRow(env, row, Fixed(fields), touches);
            && bulk.id == row.id && Shaped(bulk, fields)
            && forall f :: f in fields && PerRow(f) ==> Cell(bulk, f.column) == Cell(row, f.column)
  {
    OneFieldPerColumn(fields);
    BulkCells(env, row, fields, touches);
  }

  lemma ChangedCells(env: Env, row: Row, fields: seq<PlannedField>, touches: bool)
    requires Lawful(env.cipher) && DistinctFields(fields) && Shaped(row, fields)
    ensures Changes(env, row, fields) ==> Anonymized(env, row, fields, touches).cells != row.cells
  {
    var after := Anonymized(env, row, fields, touches);
    FinalCells(env, row, fields, touches);
    if f :| f in fields && Writes(env, row, f) {
      WritesDiffer(env, row, f);
      assert Cell(after, f.column) != Cell(row, f.column);
    } else if Dirty(env, row, Fixed(fields)) {
      var f :| f in Fixed(fields) && Distinct(env, row, f);
      FixedMembers(fields);
      assert Cell(after, f.column) != Cell(row, f.column);
    }
  }

  lemma {:induction false} StepsUntouched(env: Env, snapshot: Row, now: Row, fields: seq<PlannedField>)
    ensures FieldSteps(env, snapshot, now, fields, false).updatedAt == now.updatedAt
  {
    if fields != [] {
      StepsUntouched(env, snapshot, now, fields[..|fields| - 1]);
    }
  }

  // ---- A second apply ---------------------------------------------------------------------------

  /** Later runs have the same keys and hash, but other IVs and times. */
  ghost predicate SameKeys(env: Env, later: Env) {
    && later.cipher == env.cipher && later.active == env.active && later.previous == env.previous
    && later.sha256 == env.sha256 && later.parseJson == env.parseJson
  }

  /** A second apply keeps every value, every marker ciphertext and the timestamp. */
  lemma SecondApplyChangesNothing(env: Env, later: Env, row: Row, fields: seq<PlannedField>, touches: bool)
    requires Lawful(env.cipher) && SameKeys(env, later) && DistinctFields(fields) && Shaped(row, fields)
    ensures var once := Anonymized(env, row, fields, touches);
            !Changes(later, once, fields) && Anonymized(later, once, fields, touches) == once
  {
    var once := Anonymized(env, row, fields, touches);
    FinalCells(env, row, fields, touches);
    FixedMembers(fields);
    forall f | f in fields ensures !Writes(later, once, f) {
      NothingResidual(env, row, fields, touches, f);
    }
    forall f | f in Fixed(fields) ensures !Distinct(later, once, f) {
    }
    ChangeIffTouched(later, once, fields, touches);
  }
}
