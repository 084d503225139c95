/**
 * What anonymisation leaves in a table, told from the rules alone: the plan
 * misses no rule, and each ruled column ends with the value of its kind
 * (apps/api/src/cli/anonymize-titular.ts:139-157, 482-553, 596-644).
 */
module AnonymizeRules {
  import opened Options
  import opened FieldCipher
  import opened AnonymizePlan
  import opened AnonymizeTable
  import opened AnonymizeJob

  // ---- What a rule asks for -----------------------------------------------------------------------

  predicate Opened(env: Env, v: Value, plaintext: string) {
    v.Text? && DecryptFirst(env.cipher, [env.active] + env.previous, v.text) == Some(plaintext)
  }

  predicate Hashed(env: Env, v: Value, marker: string, id: string) {
    v == Text(env.sha256(marker + ":" + id))
  }

  function MarkerText(rule: FieldRule): string {
    if rule.marker.Some? then rule.marker.value else "ANONIMIZADO"
  }

  /** What is encrypted as marker of this column in this row: a document number carries the row's id. */
  function MarkerFor(column: string, id: string, marker: string): string {
    if column == "document_number" then "ANONIMIZADO:" + id else marker
  }

  /** A column that refuses NULL gets the rule's substitute, by its data type where the rule has none. */
  predicate SubstituteHeld(env: Env, rule: FieldRule, column: Column, id: string, v: Value) {
    if rule.notNullFallback == Some(KMarker) then v == Text("ANONIMIZADO")
    else if rule.notNullFallback == Some(KEncryptedMarker) then
      Opened(env, v, MarkerFor(rule.column, id, "ANONIMIZADO"))
    else if rule.notNullFallback == Some(KEmptyJson) || column.dataType == "jsonb" then v == JsonObject(0)
    else if rule.notNullFallback == Some(KLegacyHash) then Hashed(env, v, MarkerText(rule), id)
    else v == Text("ANONIMIZADO")
  }

  /** The value that a ruled column of a row must end with. */
  predicate RuleHeld(env: Env, rule: FieldRule, column: Column, id: string, v: Value) {
    match rule.kind
    case KNull => if column.nullable then v == Null else SubstituteHeld(env, rule, column, id, v)
    case KMarker => v == Text("ANONIMIZADO")
    case KFalse => v == Bool(false)
    case KEmptyJson => v == JsonObject(0)
    case KEncryptedMarker => Opened(env, v, MarkerFor(rule.column, id, MarkerText(rule)))
    case KLegacyHash => if column.nullable then v == Null else Hashed(env, v, MarkerText(rule), id)
  }

  // ---- The plan misses no rule ----------------------------------------------------------------------

  /** The expected value of each kind; NULL where it is refused is replaced by the rule's substitute. */
  predicate AsksFor(rule: FieldRule, column: Column, e: Expected) {
    match rule.kind
    case KNull =>
      if column.nullable then e == ENull
      else if rule.notNullFallback == Some(KEncryptedMarker) then e == EEncryptedMarker("ANONIMIZADO")
      else if rule.notNullFallback == Some(KEmptyJson) then e == EJsonEmpty
      else if rule.notNullFallback == Some(KMarker) || column.dataType != "jsonb" then
        e == if rule.notNullFallback == Some(KLegacyHash) then ELegacyHash(MarkerText(rule))
             else EValue(Text("ANONIMIZADO"))
      else e == EJsonEmpty
    case KMarker => e == EValue(Text("ANONIMIZADO"))
    case KFalse => e == EValue(Bool(false))
    case KEmptyJson => e == EJsonEmpty
    case KEncryptedMarker => e == EEncryptedMarker(MarkerText(rule))
    case KLegacyHash => e == if column.nullable then ENull else ELegacyHash(MarkerText(rule))
  }

  ghost predicate PlannedFor(fields: seq<PlannedField>, rule: FieldRule, columns: Columns)
    requires rule.column in columns
  {
    exists f :: f in fields && f.column == rule.column && AsksFor(rule, columns[rule.column], f.expected)
  }

  lemma StillPlanned(fields: seq<PlannedField>, more: seq<PlannedField>, rule: FieldRule, columns: Columns)
    requires rule.column in columns && PlannedFor(fields, rule, columns)
    ensures PlannedFor(fields + more, rule, columns)
  {
    var f :| f in fields && f.column == rule.column && AsksFor(rule, columns[rule.column], f.expected);
    assert f in fields + more;
  }

  lemma {:induction false} EveryRulePlanned(rules: seq<FieldRule>, columns: Columns, rule: FieldRule)
    requires PlanRules(rules, columns).Some? && rule in rules && rule.column in columns
    ensures PlannedFor(PlanRules(rules, columns).value, rule, columns)
  {
    var front, last := rules[..|rules| - 1], rules[|rules| - 1];
    assert rules == front + [last];
    var fields := PlanRules(front, columns).value;
    if rule in front {
      EveryRulePlanned(front, columns, rule);
      if last.column in columns {
        var f := PlannedField(last.column, ExpectedValue(last, columns[last.column]).value);
        StillPlanned(fields, [f], rule, columns);
      }
    } else {
      var f := PlannedField(last.column, ExpectedValue(last, columns[last.column]).value);
      assert f in fields + [f];
    }
  }

  /** A party's document number is planned besides its rules. */
  predicate DocumentPlanned(fields: seq<PlannedField>) {
    PlannedField("document_number", EEncryptedMarker("ANONIMIZADO:")) in fields
  }

  /** When the planner succeeds every rule whose column exists has its field in the plan. */
  lemma PlanIsComplete(table: string, rules: seq<FieldRule>, columns: Columns)
    requires PlanTable(table, rules, columns, true).Some?
    ensures var fields := PlanTable(table, rules, columns, true).value;
            && (forall rule :: rule in rules && rule.column in columns ==> PlannedFor(fields, rule, columns))
            && (table == "party" && "document_number" in columns ==> DocumentPlanned(fields))
  {
    var planned, fields := PlanRules(rules, columns).value, PlanTable(table, rules, columns, true).value;
    assert ANONYMIZED + ":" == "ANONIMIZADO:";
    forall rule | rule in rules && rule.column in columns ensures PlannedFor(fields, rule, columns) {
      EveryRulePlanned(rules, columns, rule);
      if fields != planned {
        StillPlanned(planned, fields[|planned|..], rule, columns);
        assert fields == planned + fields[|planned|..];
      }
    }
  }

  // ---- What the table holds afterwards ----------------------------------------------------------------

  /** A fixed value is that of its rule. */
  lemma FixedValueHeld(env: Env, rule: FieldRule, column: Column, f: PlannedField, id: string)
    requires f.column == rule.column && AsksFor(rule, column, f.expected) && !PerRow(f)
    ensures RuleHeld(env, rule, column, id, SqlValue(env, f.expected, "", f.column))
  {
  }

  /** A value per row that counts as the expected one is that of its rule. */
  lemma CountingValueHeld(env: Env, rule: FieldRule, column: Column, f: PlannedField, id: string, v: Value)
    requires f.column == rule.column && AsksFor(rule, column, f.expected) && PerRow(f)
    requires EqualExpected(env, v, ExpectedForRow(f, id), id)
    ensures RuleHeld(env, rule, column, id, v)
  {
    assert ANONYMIZED + ":" == "ANONIMIZADO:";
  }

  /** Every ruled column of an anonymised row holds what its rule asks for. */
  lemma RowHoldsRule(env: Env, row: Row, fields: seq<PlannedField>, touches: bool, rule: FieldRule, columns: Columns)
    requires Lawful(env.cipher) && DistinctFields(fields) && Shaped(row, fields)
    requires rule.column in columns && PlannedFor(fields, rule, columns)
    ensures RuleHeld(env, rule, columns[rule.column], row.id,
                     Cell(Anonymized(env, row, fields, touches), rule.column))
  {
    var f :| f in fields && f.column == rule.column && AsksFor(rule, columns[rule.column], f.expected);
    var after := Anonymized(env, row, fields, touches);
    if PerRow(f) {
      NothingResidual(env, row, fields, touches, f);
      CountingValueHeld(env, rule, columns[rule.column], f, row.id, Cell(after, f.column));
    } else {
      FinalCells(env, row, fields, touches);
      FixedValueHeld(env, rule, columns[rule.column], f, row.id);
    }
  }

  lemma RowHoldsDocument(env: Env, row: Row, fields: seq<PlannedField>, touches: bool)
    requires Lawful(env.cipher) && DistinctFields(fields) && Shaped(row, fields) && DocumentPlanned(fields)
    ensures Opened(env, Cell(Anonymized(env, row, fields, touches), "document_number"), "ANONIMIZADO:" + row.id)
  {
    var f := PlannedField("document_number", EEncryptedMarker("ANONIMIZADO:"));
    assert ANONYMIZED + ":" == "ANONIMIZADO:";
    NothingResidual(env, row, fields, touches, f);
  }

  /** Every row in scope holds in every ruled column what the rule asks for, and a party its own marker as document. */
  ghost predicate RulesHeld(env: Env, rows: seq<Row>, ids: seq<string>, table: string, rules: seq<FieldRule>,
                            columns: Columns)
  {
    && (forall row, rule :: row in rows && row.id in ids && rule in rules && rule.column in columns ==>
          RuleHeld(env, rule, columns[rule.column], row.id, Cell(row, rule.column)))
    && (table == "party" && "document_number" in columns ==>
          forall row :: row in rows && row.id in ids ==>
            Opened(env, Cell(row, "document_number"), "ANONIMIZADO:" + row.id))
  }

  lemma AfterApplyHoldsRules(env: Env, rows0: seq<Row>, ids: seq<string>, table: string, rules: seq<FieldRule>,
                             columns: Columns, touches: bool)
    requires Lawful(env.cipher) && ProperRules(table, rules) && PlanTable(table, rules, columns, true).Some?
    requires forall r :: r in rows0 ==> columns.Keys <= r.cells.Keys
    ensures var fields := PlanTable(table, rules, columns, true).value;
            RulesHeld(env, AfterApply(env, rows0, ids, fields, touches), ids, table, rules, columns)
  {
    var fields := PlanTable(table, rules, columns, true).value;
    var rows := AfterApply(env, rows0, ids, fields, touches);
    PlanDistinct(table, rules, columns, true);
    PlanIsComplete(table, rules, columns);
    forall row | row in rows && row.id in ids
      ensures exists was :: was in rows0 && was.id == row.id && row == Anonymized(env, was, fields, touches)
    {
      var k :| 0 <= k < |rows| && rows[k] == row;
      RowKeepsId(env, rows0[k], ids, fields, touches);
      assert rows0[k] in rows0;
    }
    forall row, rule | row in rows && row.id in ids && rule in rules && rule.column in columns
      ensures RuleHeld(env, rule, columns[rule.column], row.id, Cell(row, rule.column))
    {
      var was :| was in rows0 && was.id == row.id && row == Anonymized(env, was, fields, touches);
      RowHoldsRule(env, was, fields, touches, rule, columns);
    }
    if table == "party" && "document_number" in columns {
      forall row | row in rows && row.id in ids
        ensures Opened(env, Cell(row, "document_number"), "ANONIMIZADO:" + row.id)
      {
        var was :| was in rows0 && was.id == row.id && row == Anonymized(env, was, fields, touches);
        RowHoldsDocument(env, was, fields, touches);
      }
    }
  }

  lemma RowKeepsId(env: Env, row: Row, ids: seq<string>, fields: seq<PlannedField>, touches: bool)
    ensures RowAfter(env, row, ids, fields, touches).id == row.id
    ensures row.id in ids ==> RowAfter(env, row, ids, fields, touches) == Anonymized(env, row, fields, touches)
  {
    StepsKeepId(env, row, BulkRow(env, row, Fixed(fields), touches), fields, touches);
  }

  /**
   * anonymizeTable in apply, from the rules alone: whatever was stored, every
   * row in scope ends with the values of its rules, unless the planner refuses.
   */
  method ApplyHoldsRules(t: Table, table: string, ids: seq<string>, columns: Columns, rules: seq<FieldRule>, env: Env)
    returns (report: Option<Report>)
    requires Lawful(env.cipher) && ProperRules(table, rules) && UniqueIds(t.rows)
    requires forall r :: r in t.rows ==> columns.Keys <= r.cells.Keys
    modifies t
    ensures report.Some? ==> RulesHeld(env, t.rows, ids, table, rules, columns)
  {
    report := t.AnonymizeTable(table, ids, columns, rules, env, Apply);
    if report.Some? && !Skipped(ids, columns) {
      AfterApplyHoldsRules(env, old(t.rows), ids, table, rules, columns, "updated_at" in columns);
    }
  }
}
