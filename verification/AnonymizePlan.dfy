/**
 * The plan of an anonymisation: which value each personal column must end
 * with, and when a stored value already counts as that
 * (apps/api/src/cli/anonymize-titular.ts:139-157, 482-553, 596-644).
 */
module AnonymizePlan {
  import opened Options
  import opened FieldCipher

  /** A column value as the driver returns it. */
  datatype Value =
    | Null
    | Text(text: string)
    | Bool(flag: bool)
    | JsonObject(size: nat)
    | JsonArray(size: nat)
    | Number(number: int)

  datatype Kind = KNull | KMarker | KFalse | KEmptyJson | KEncryptedMarker | KLegacyHash

  datatype FieldRule = FieldRule(column: string, kind: Kind, marker: Option<string>, notNullFallback: Option<Kind>)

  datatype Column = Column(nullable: bool, dataType: string)

  type Columns = map<string, Column>

  datatype Expected =
    | ENull
    | EValue(value: Value)
    | EJsonEmpty
    | EEncryptedMarker(marker: string)
    | ELegacyHash(marker: string)

  datatype PlannedField = PlannedField(column: string, expected: Expected)

  /** Crypto, SHA-256 in hex, JSON.parse, the IV of each write and the database clock in microseconds. */
  datatype Env = Env(
    cipher: Cipher,
    active: Key,
    previous: seq<Key>,
    sha256: string -> string,
    parseJson: string -> Option<Value>,
    nonce: (string, string) -> Nonce,
    clock: (string, string) -> int)

  const ANONYMIZED := "ANONIMIZADO"

  function Marker(rule: FieldRule): string {
    if rule.marker.Some? then rule.marker.value else ANONYMIZED
  }

  /** getExpectedValue; None for the thrown error. */
  function ExpectedValue(rule: FieldRule, column: Column): Option<Expected> {
    match rule.kind
    case KNull =>
      if column.nullable then Some(ENull)
      else if rule.notNullFallback == Some(KMarker) then Some(EValue(Text(ANONYMIZED)))
      else if rule.notNullFallback == Some(KEncryptedMarker) then Some(EEncryptedMarker(ANONYMIZED))
      else if rule.notNullFallback == Some(KEmptyJson) || column.dataType == "jsonb" then Some(EJsonEmpty)
      else if rule.notNullFallback == Some(KLegacyHash) then Some(ELegacyHash(Marker(rule)))
      else if column.dataType == "text" || column.dataType == "character varying" then Some(EValue(Text(ANONYMIZED)))
      else None
    case KMarker => Some(EValue(Text(ANONYMIZED)))
    case KFalse => Some(EValue(Bool(false)))
    case KEmptyJson => Some(EJsonEmpty)
    case KEncryptedMarker => Some(EEncryptedMarker(Marker(rule)))
    case KLegacyHash => if column.nullable then Some(ENull) else Some(ELegacyHash(Marker(rule)))
  }

  function PlanRules(rules: seq<FieldRule>, columns: Columns): Option<seq<PlannedField>> {
    if rules == [] then Some([])
    else
      var front, rule := PlanRules(rules[..|rules| - 1], columns), rules[|rules| - 1];
      if front.None? then None
      else if rule.column !in columns then front
      else
        var e := ExpectedValue(rule, columns[rule.column]);
        if e.None? then None else Some(front.value + [PlannedField(rule.column, e.value)])
  }

  /** planTableFields: the rules of the table and, for parties, the document number. */
  function PlanTable(table: string, rules: seq<FieldRule>, columns: Columns, anyIds: bool): Option<seq<PlannedField>> {
    var planned := PlanRules(rules, columns);
    if planned.Some? && table == "party" && "document_number" in columns && anyIds then
      Some(planned.value + [PlannedField("document_number", EEncryptedMarker(ANONYMIZED + ":"))])
    else planned
  }

  /** expectedForRow: the document number is marked with the row's own id. */
  function ExpectedForRow(f: PlannedField, id: string): Expected {
    if f.column == "document_number" && f.expected.EEncryptedMarker? then EEncryptedMarker(ANONYMIZED + ":" + id)
    else f.expected
  }

  predicate PerRow(f: PlannedField) {
    f.expected.EEncryptedMarker? || f.expected.ELegacyHash?
  }

  function LegacyHash(env: Env, marker: string, id: string): string {
    env.sha256(marker + ":" + id)
  }

  /** sqlValue, as the column then holds it. */
  function SqlValue(env: Env, expected: Expected, id: string, column: string): Value {
    match expected
    case ENull => Null
    case EValue(v) => v
    case EJsonEmpty => JsonObject(0)
    case EEncryptedMarker(m) => Text(env.cipher.enc(env.active, env.nonce(id, column), m))
    case ELegacyHash(m) => Text(LegacyHash(env, m, id))
  }

  predicate EmptyJson(v: Value) {
    (v.JsonObject? || v.JsonArray?) && v.size == 0
  }

  predicate EqualExpected(env: Env, current: Value, expected: Expected, id: string) {
    match expected
    case ENull => current.Null?
    case EValue(v) => current == v
    case EJsonEmpty =>
      if current.Text? then
        var parsed := env.parseJson(current.text);
        parsed.Some? && EmptyJson(parsed.value)
      else EmptyJson(current)
    case ELegacyHash(m) => current == Text(LegacyHash(env, m, id))
    case EEncryptedMarker(m) =>
      && current.Text? && current.text != ""
      && DecryptFirst(env.cipher, [env.active] + env.previous, current.text) == Some(m)
  }

  /** What sqlValue writes, equalExpected accepts. */
  lemma WrittenIsExpected(env: Env, expected: Expected, id: string, column: string)
    requires Lawful(env.cipher)
    ensures EqualExpected(env, SqlValue(env, expected, id, column), expected, id)
  {
    if expected.EEncryptedMarker? {
      var ct := SqlValue(env, expected, id, column).text;
      CiphertextNotBlank(ct);
      assert ([env.active] + env.previous)[0] == env.active;
    }
  }

  ghost predicate DistinctRules(rules: seq<FieldRule>) {
    forall i, j :: 0 <= i < j < |rules| ==> rules[i].column != rules[j].column
  }

  /** Rules of a table: one per column, and none on the columns that the job treats itself. */
  ghost predicate ProperRules(table: string, rules: seq<FieldRule>) {
    && DistinctRules(rules)
    && (table == "party" ==> forall r :: r in rules ==> r.column != "document_number")
  }

  ghost predicate DistinctFields(fields: seq<PlannedField>) {
    forall i, j :: 0 <= i < j < |fields| ==> fields[i].column != fields[j].column
  }

  lemma {:induction false} PlanRulesColumns(rules: seq<FieldRule>, columns: Columns, f: PlannedField)
    requires PlanRules(rules, columns).Some? && f in PlanRules(rules, columns).value
    ensures f.column in columns && exists r :: r in rules && r.column == f.column
  {
    var front, last := rules[..|rules| - 1], rules[|rules| - 1];
    assert last in rules;
    if f in PlanRules(front, columns).value {
      PlanRulesColumns(front, columns, f);
      var r :| r in front && r.column == f.column;
      assert r in rules;
    }
  }

  lemma OneMoreField(fields: seq<PlannedField>, f: PlannedField)
    requires DistinctFields(fields) && forall g :: g in fields ==> g.column != f.column
    ensures DistinctFields(fields + [f])
  {
  }

  lemma {:induction false} PlanRulesDistinct(rules: seq<FieldRule>, columns: Columns)
    requires DistinctRules(rules) && PlanRules(rules, columns).Some?
    ensures DistinctFields(PlanRules(rules, columns).value)
    ensures forall f :: f in PlanRules(rules, columns).value ==>
              f.column in columns && exists r :: r in rules && r.column == f.column
  {
    if rules != [] {
      var front, last := rules[..|rules| - 1], rules[|rules| - 1];
      PlanRulesDistinct(front, columns);
      var fields := PlanRules(front, columns).value;
      if last.column in columns {
        OneMoreField(fields, PlannedField(last.column, ExpectedValue(last, columns[last.column]).value));
      }
    }
    forall f | f in PlanRules(rules, columns).value
      ensures f.column in columns && exists r :: r in rules && r.column == f.column
    {
      PlanRulesColumns(rules, columns, f);
    }
  }

  /** The plan touches each column once, and only columns that exist. */
  lemma PlanDistinct(table: string, rules: seq<FieldRule>, columns: Columns, anyIds: bool)
    requires ProperRules(table, rules) && PlanTable(table, rules, columns, anyIds).Some?
    ensures DistinctFields(PlanTable(table, rules, columns, anyIds).value)
    ensures forall f :: f in PlanTable(table, rules, columns, anyIds).value ==> f.column in columns
  {
    PlanRulesDistinct(rules, columns);
  }

  /** A rule that the planner cannot satisfy: NULL wanted, NULL refused, and no substitute. */
  predicate Unsatisfiable(rule: FieldRule, columns: Columns) {
    && rule.column in columns && rule.kind.KNull? && !columns[rule.column].nullable
    && rule.notNullFallback !in {Some(KMarker), Some(KEncryptedMarker), Some(KEmptyJson), Some(KLegacyHash)}
    && columns[rule.column].dataType !in {"jsonb", "text", "character varying"}
  }

  /** The planner fails exactly on such a rule, and never plans NULL for a column that refuses it. */
  lemma {:induction false} PlannerAccepts(rules: seq<FieldRule>, columns: Columns)
    ensures PlanRules(rules, columns).None? <==> exists r :: r in rules && Unsatisfiable(r, columns)
    ensures PlanRules(rules, columns).Some? ==>
              forall f :: f in PlanRules(rules, columns).value && f.expected.ENull? ==>
                f.column in columns && columns[f.column].nullable
  {
    if rules != [] {
      var front, last := rules[..|rules| - 1], rules[|rules| - 1];
      PlannerAccepts(front, columns);
      assert rules == front + [last];
      assert last.column in columns ==>
          (ExpectedValue(last, columns[last.column]).None? <==> Unsatisfiable(last, columns));
    }
  }
}
