/**
 * The paging loop over one column and the run over all schemas and targets
 * (apps/api/src/cli/reencrypt-aes.pii.ts:261-403).
 */
module ReencryptRun {
  import opened Options
  import opened Text
  import opened FieldCipher
  import opened ReencryptPii

  /** One target column in one schema; `table` decides whether the column can be read. */
  datatype Job = Job(schema: string, entityType: string, table: string, column: string)

  datatype Slot = Slot(schema: string, table: string, column: string)

  datatype TargetMetrics = TargetMetrics(schemaName: string, entityType: string, tally: Tally)

  datatype Report = Report(
    mode: Mode,
    targets: seq<TargetMetrics>,
    totals: Counts,
    pending: nat,
    hasBlockingIssues: bool)

  /** What a run is given for each column: the IVs and refusals may differ from column to column. */
  datatype Plan = Plan(cipher: Cipher, keys: Keys, nonce: (Slot, string) -> Nonce,
                       rejects: (Slot, string) -> Option<string>)
  {
    function At(slot: Slot): Env {
      Env(cipher, keys, id => nonce(slot, id), id => rejects(slot, id))
    }
  }

  function SlotOf(job: Job): Slot {
    Slot(job.schema, job.table, job.column)
  }

  /** Rows whose id is in `done` rewritten, the others as they were. */
  ghost function RewriteDone(env: Env, cells: seq<Cell>, done: set<string>): seq<Cell> {
    seq(|cells|, i requires 0 <= i < |cells| => if cells[i].id in done then Rewrite(env, cells[i]) else cells[i])
  }

  function SetCell(cells: seq<Cell>, id: string, value: string): seq<Cell> {
    seq(|cells|, i requires 0 <= i < |cells| => if cells[i].id == id then cells[i].(value := Some(value)) else cells[i])
  }

  ghost function Ids(cells: seq<Cell>): set<string> {
    set c | c in cells :: c.id
  }

  // ---- Selection under rewriting --------------------------------------------------

  lemma RewriteDoneCons(env: Env, c: Cell, rest: seq<Cell>, done: set<string>)
    ensures RewriteDone(env, [c] + rest, done)
            == [if c.id in done then Rewrite(env, c) else c] + RewriteDone(env, rest, done)
  {
  }

  lemma {:induction false} SelectedRewriteDone(env: Env, cells: seq<Cell>, done: set<string>)
    requires Lawful(env.cipher)
    ensures SelectedCells(RewriteDone(env, cells, done)) == RewriteDone(env, SelectedCells(cells), done)
  {
    if cells != [] {
      var c, rest := cells[0], cells[1..];
      RewriteKeepsReading(env, c);
      SelectedRewriteDone(env, rest, done);
      assert cells == [c] + rest;
      RewriteDoneCons(env, c, rest, done);
      RewriteDoneCons(env, c, SelectedCells(rest), done);
      SelectedCons(if c.id in done then Rewrite(env, c) else c, RewriteDone(env, rest, done));
    }
  }

  lemma {:induction false} SelectedMembers(cells: seq<Cell>)
    ensures forall c :: c in SelectedCells(cells) <==> c in cells && Selected(c)
  {
    if cells != [] {
      SelectedMembers(cells[1..]);
      assert cells == [cells[0]] + cells[1..];
    }
  }

  lemma FirstIsNew(c: Cell, rest: seq<Cell>, part: seq<Cell>)
    requires UniqueIds([c] + rest) && UniqueIds(part) && forall d :: d in part ==> d in rest
    ensures UniqueIds([c] + part)
  {
    var all := [c] + rest;
    forall d | d in rest ensures d.id != c.id {
      var i :| 0 <= i < |rest| && rest[i] == d;
      assert all[0] == c && all[i + 1] == d;
    }
  }

  lemma {:induction false} SelectedUnique(cells: seq<Cell>)
    requires UniqueIds(cells)
    ensures UniqueIds(SelectedCells(cells))
    ensures forall c :: c in SelectedCells(cells) <==> c in cells && Selected(c)
  {
    SelectedMembers(cells);
    if cells != [] {
      SelectedUnique(cells[1..]);
      SelectedMembers(cells[1..]);
      FirstIsNew(cells[0], cells[1..], SelectedCells(cells[1..]));
      assert cells == [cells[0]] + cells[1..];
    }
  }

  /** The n-th page still shows the rows from n on as they were before the job. */
  lemma RestUntouched(env: Env, selected: seq<Cell>, n: nat)
    requires UniqueIds(selected) && n <= |selected|
    ensures |RewriteDone(env, selected, Ids(selected[..n]))| == |selected|
    ensures RewriteDone(env, selected, Ids(selected[..n]))[n..] == selected[n..]
  {
    forall i, c | n <= i < |selected| && c in selected[..n] ensures c.id != selected[i].id {
      var k :| 0 <= k < n && selected[k] == c;
    }
  }

  lemma IdsGrow(selected: seq<Cell>, n: nat)
    requires n < |selected|
    ensures Ids(selected[..n + 1]) == Ids(selected[..n]) + {selected[n].id}
  {
    assert selected[..n + 1] == selected[..n] + [selected[n]];
  }

  lemma SameIdSameCell(cells: seq<Cell>, c: Cell)
    requires UniqueIds(cells) && c in cells
    ensures forall d :: d in cells && d.id == c.id ==> d == c
  {
    forall d | d in cells && d.id == c.id ensures d == c {
      var i :| 0 <= i < |cells| && cells[i] == c;
      var j :| 0 <= j < |cells| && cells[j] == d;
    }
  }

  /** Writing the rewritten value of one more row is one more id in the set. */
  lemma OneMore(env: Env, cells: seq<Cell>, c: Cell, done: set<string>)
    requires forall d :: d in cells && d.id == c.id ==> d == c
    requires c.value.Some?
    ensures Rewrite(env, c).value.Some?
    ensures SetCell(RewriteDone(env, cells, done), c.id, Rewrite(env, c).value.value)
            == RewriteDone(env, cells, done + {c.id})
    ensures Rewrite(env, c) == c ==> RewriteDone(env, cells, done) == RewriteDone(env, cells, done + {c.id})
  {
    assert Rewrite(env, c).id == c.id;
    forall i | 0 <= i < |cells| && cells[i].id == c.id ensures cells[i] == c {
      assert cells[i] in cells;
    }
    assert forall d :: d in cells ==> Rewrite(env, d).id == d.id;
  }

  lemma AllDone(env: Env, cells: seq<Cell>)
    requires UniqueIds(cells)
    ensures RewriteDone(env, cells, Ids(SelectedCells(cells))) == RewriteAll(env, cells)
  {
    SelectedUnique(cells);
    forall i | 0 <= i < |cells|
      ensures RewriteDone(env, cells, Ids(SelectedCells(cells)))[i] == Rewrite(env, cells[i])
    {
      if !Selected(cells[i]) {
        NotSelectedKept(env, cells[i]);
      } else {
        assert cells[i] in SelectedCells(cells);
      }
    }
  }

  lemma NotSelectedKept(env: Env, c: Cell)
    requires !Selected(c)
    ensures Rewrite(env, c) == c && !Blocked(env, c)
  {
    if c.value.Some? {
      assert IsBlank(c.value.value) by {
        forall ch | ch in c.value.value ensures IsSpace(ch) { assert ch == ' '; }
      }
    }
  }

  // ---- The job on one column --------------------------------------------------------

  /** OFFSET and LIMIT. */
  function Page(rows: seq<Cell>, offset: nat, limit: nat): seq<Cell> {
    if offset >= |rows| then []
    else if offset + limit <= |rows| then rows[offset..offset + limit]
    else rows[offset..]
  }

  function Stored(columns: map<Slot, seq<Cell>>, slot: Slot): seq<Cell> {
    if slot in columns then columns[slot] else []
  }

  ghost predicate UniqueColumns(columns: map<Slot, seq<Cell>>) {
    forall slot :: slot in columns ==> UniqueIds(columns[slot])
  }

  /** Only this column may differ. */
  ghost predicate OthersKept(before: map<Slot, seq<Cell>>, now: map<Slot, seq<Cell>>, slot: Slot) {
    now.Keys == before.Keys && forall s :: s != slot ==> Stored(now, s) == Stored(before, s)
  }

  lemma OthersKeptTwice(a: map<Slot, seq<Cell>>, b: map<Slot, seq<Cell>>, c: map<Slot, seq<Cell>>, slot: Slot)
    requires OthersKept(a, b, slot) && OthersKept(b, c, slot)
    ensures OthersKept(a, c, slot)
  {
  }

  class TenantDatabase {
    const tables: set<(string, string)>
    var columns: map<Slot, seq<Cell>>

    constructor (tables: set<(string, string)>, columns: map<Slot, seq<Cell>>)
      ensures this.tables == tables && this.columns == columns
    {
      this.tables, this.columns := tables, columns;
    }

    ghost predicate Valid()
      reads this
    {
      UniqueColumns(columns)
    }

    function Column(slot: Slot): seq<Cell>
      reads this
    {
      Stored(columns, slot)
    }

    function TableExists(job: Job): bool {
      (job.schema, job.table) in tables
    }

    /** One page of the selected rows in id order. */
    function FetchEncryptedBatch(slot: Slot, offset: nat, limit: nat): (page: seq<Cell>)
      reads this
    {
      Page(SelectedCells(Column(slot)), offset, limit)
    }

    method UpdateEncryptedValue(slot: Slot, id: string, ciphertext: string)
      requires Valid()
      modifies this`columns
      ensures Valid()
      ensures Column(slot) == SetCell(old(Column(slot)), id, ciphertext)
      ensures OthersKept(old(columns), columns, slot)
    {
      if slot in columns {
        columns := columns[slot := SetCell(columns[slot], id, ciphertext)];
      }
    }
  }

  /** How many rows pass before the first one whose write is refused. */
  ghost function AcceptedRows(env: Env, rows: seq<Cell>): (n: nat)
    ensures n <= |rows| && (n < |rows| ==> Blocked(env, rows[n]))
  {
    if rows == [] || Blocked(env, rows[0]) then 0 else 1 + AcceptedRows(env, rows[1..])
  }

  lemma {:induction false} AcceptedRowsPass(env: Env, rows: seq<Cell>, i: nat)
    requires i < AcceptedRows(env, rows)
    ensures !Blocked(env, rows[i])
  {
    if i > 0 {
      AcceptedRowsPass(env, rows[1..], i - 1);
    }
  }

  lemma {:induction false} AcceptedRowsReach(env: Env, rows: seq<Cell>, n: nat)
    requires n <= |rows| && forall i :: 0 <= i < n ==> !Blocked(env, rows[i])
    ensures n <= AcceptedRows(env, rows)
  {
    if n > 0 {
      assert forall i :: 0 <= i < n - 1 ==> rows[1..][i] == rows[i + 1];
      AcceptedRowsReach(env, rows[1..], n - 1);
    }
  }

  /** The SQLSTATE of the first refused write. */
  ghost function FirstBlocked(env: Env, rows: seq<Cell>): Option<string> {
    var n := AcceptedRows(env, rows);
    if n < |rows| then Some(Classify(env, Apply, rows[n]).sqlState) else None
  }

  lemma NoneBlocked(env: Env, rows: seq<Cell>)
    ensures FirstBlocked(env, rows).None? <==> forall c :: c in rows ==> !Blocked(env, c)
  {
    if FirstBlocked(env, rows).None? {
      forall i | 0 <= i < |rows| ensures !Blocked(env, rows[i]) {
        AcceptedRowsPass(env, rows, i);
      }
    } else {
      assert rows[AcceptedRows(env, rows)] in rows;
    }
  }

  /** What the loop over one column leaves behind after its first n selected rows. */
  ghost function ColumnAfter(env: Env, mode: Mode, cells: seq<Cell>, n: nat): seq<Cell>
    requires n <= |SelectedCells(cells)|
  {
    if mode.Apply? then RewriteDone(env, cells, Ids(SelectedCells(cells)[..n])) else cells
  }

  /** The first n selected rows are done: table, totals, and in apply no refusal among them. */
  ghost predicate RowsDone(env: Env, mode: Mode, cells: seq<Cell>, n: nat, now: seq<Cell>, metrics: Tally) {
    && UniqueIds(cells) && n <= |SelectedCells(cells)|
    && now == ColumnAfter(env, mode, cells, n)
    && metrics == TallyOf(env, mode, SelectedCells(cells)[..n])
    && (mode.Apply? ==> n <= AcceptedRows(env, SelectedCells(cells)))
  }

  lemma NothingDone(env: Env, mode: Mode, cells: seq<Cell>)
    requires UniqueIds(cells)
    ensures RowsDone(env, mode, cells, 0, cells, Tally(ZERO, map[]))
  {
    assert SelectedCells(cells)[..0] == [];
    assert RewriteDone(env, cells, {}) == cells;
  }

  /** Past the rows accepted so far comes the first refused row or one more that is accepted. */
  lemma NextAccepted(env: Env, rows: seq<Cell>, n: nat)
    requires n < |rows| && n <= AcceptedRows(env, rows)
    ensures if Blocked(env, rows[n]) then AcceptedRows(env, rows) == n else n + 1 <= AcceptedRows(env, rows)
  {
    if n < AcceptedRows(env, rows) {
      AcceptedRowsPass(env, rows, n);
    }
  }

  /**
   * The job on one column: one pass of totals and, in apply, every selected row
   * rewritten; or the first refusal, with exactly the rows before it rewritten.
   */
  ghost predicate ColumnResult(env: Env, mode: Mode, cells: seq<Cell>, now: seq<Cell>, r: Result<Tally, string>) {
    var selected := SelectedCells(cells);
    var refused := if mode.Apply? then FirstBlocked(env, selected) else None;
    match r
    case Err(e) => refused == Some(e) && now == LeftColumn(env, cells)
    case Ok(t) =>
      && refused.None?
      && t == TallyOf(env, mode, selected)
      && now == (if mode.Apply? then RewriteAll(env, cells) else cells)
  }

  /** What apply leaves in a column: the selected rows before the first refused one are rewritten. */
  ghost function LeftColumn(env: Env, cells: seq<Cell>): seq<Cell> {
    ColumnAfter(env, Apply, cells, AcceptedRows(env, SelectedCells(cells)))
  }

  lemma TallyNext(env: Env, mode: Mode, selected: seq<Cell>, n: nat)
    requires n < |selected|
    ensures TallyOf(env, mode, selected[..n + 1])
            == Count(TallyOf(env, mode, selected[..n]), Classify(env, mode, selected[n]))
  {
    assert selected[..n + 1][..n] == selected[..n] && selected[..n + 1][n] == selected[n];
  }

  /** Apply meets a refused write: the state is exactly that of the rows before it. */
  lemma RowRefused(env: Env, cells: seq<Cell>, n: nat, now: seq<Cell>, metrics: Tally)
    requires RowsDone(env, Apply, cells, n, now, metrics) && n < |SelectedCells(cells)|
    requires Blocked(env, SelectedCells(cells)[n])
    ensures ColumnResult(env, Apply, cells, now, Err(Classify(env, Apply, SelectedCells(cells)[n]).sqlState))
  {
    NextAccepted(env, SelectedCells(cells), n);
  }

  /** One more row in apply. */
  lemma RowApplied(env: Env, cells: seq<Cell>, n: nat, now: seq<Cell>, metrics: Tally, now': seq<Cell>)
    requires RowsDone(env, Apply, cells, n, now, metrics) && n < |SelectedCells(cells)|
    requires !Blocked(env, SelectedCells(cells)[n]) && now' == ColumnAfter(env, Apply, cells, n + 1)
    ensures RowsDone(env, Apply, cells, n + 1, now', Count(metrics, Classify(env, Apply, SelectedCells(cells)[n])))
  {
    NextAccepted(env, SelectedCells(cells), n);
    TallyNext(env, Apply, SelectedCells(cells), n);
  }

  /** One turn of the inner loop: the column and the totals move on by one row, or apply stops here. */
  lemma RowStep(env: Env, mode: Mode, cells: seq<Cell>, n: nat, now: seq<Cell>, metrics: Tally, row: Cell, o: Outcome)
    requires RowsDone(env, mode, cells, n, now, metrics) && n < |SelectedCells(cells)|
    requires row == SelectedCells(cells)[n] && o == Classify(env, mode, row)
    ensures mode.Apply? && o.WriteBlocked? ==> ColumnResult(env, mode, cells, now, Err(o.sqlState))
    ensures mode.Apply? && o.Reencrypted? ==>
              RowsDone(env, mode, cells, n + 1, SetCell(now, row.id, o.ciphertext), Count(metrics, o))
    ensures !mode.Apply? || (!o.Reencrypted? && !o.WriteBlocked?) ==>
              RowsDone(env, mode, cells, n + 1, now, Count(metrics, o))
  {
    if !mode.Apply? {
      TallyNext(env, mode, SelectedCells(cells), n);
    } else if o.WriteBlocked? {
      RowRefused(env, cells, n, now, metrics);
    } else {
      ColumnStep(env, cells, n, row);
      RowApplied(env, cells, n, now, metrics, if o.Reencrypted? then SetCell(now, row.id, o.ciphertext) else now);
    }
  }

  /** The table after one more selected row. */
  lemma ColumnStep(env: Env, cells: seq<Cell>, n: nat, row: Cell)
    requires UniqueIds(cells) && n < |SelectedCells(cells)| && row == SelectedCells(cells)[n]
    ensures Rewrite(env, row).value.Some?
    ensures ColumnAfter(env, Apply, cells, n + 1)
            == SetCell(ColumnAfter(env, Apply, cells, n), row.id, Rewrite(env, row).value.value)
    ensures Rewrite(env, row) == row ==> ColumnAfter(env, Apply, cells, n + 1) == ColumnAfter(env, Apply, cells, n)
  {
    var selected := SelectedCells(cells);
    SelectedUnique(cells);
    assert row in selected;
    IdsGrow(selected, n);
    SameIdSameCell(cells, row);
    OneMore(env, cells, row, Ids(selected[..n]));
  }

  /** The loop over the MFA keys, which stops at the first that opens the value. */
  method TryKeys(cipher: Cipher, keys: seq<Key>, value: string) returns (plaintext: Option<string>)
    ensures plaintext == DecryptFirst(cipher, keys, value)
  {
    plaintext := None;
    for i := 0 to |keys|
      invariant plaintext.None?
      invariant DecryptFirst(cipher, keys, value) == DecryptFirst(cipher, keys[i..], value)
    {
      assert keys[i..][1..] == keys[i + 1..];
      plaintext := cipher.dec(keys[i], value);
      if plaintext.Some? {
        return;
      }
    }
  }

  /** What the body of the row loop decides, in the order of its branches. */
  method DecideCell(env: Env, mode: Mode, row: Cell) returns (o: Outcome)
    ensures o == Classify(env, mode, row)
  {
    if row.value.None? || IsBlank(row.value.value) {
      return NotCandidate;
    }
    var value := row.value.value;
    if !LooksLikeEncrypted(value) {
      return NonCiphertext;
    }
    if env.cipher.dec(env.keys.active, value).Some? {
      return AlreadyPii;
    }
    var plaintext := TryKeys(env.cipher, PreviousKeys(env.keys), value);
    if mode.VerifyPiiOnly? && plaintext.Some? {
      return PiiPrevious;
    }
    if plaintext.None? {
      plaintext := TryKeys(env.cipher, env.keys.mfa, value);
      if mode.VerifyPiiOnly? && plaintext.Some? {
        return MfaOnly;
      }
    }
    if plaintext.None? {
      return DecryptError;
    }
    var ciphertext := env.cipher.enc(env.keys.active, env.nonce(row.id), plaintext.value);
    var refused := env.rejects(row.id);
    o := if refused.Some? then WriteBlocked(refused.value) else Reencrypted(ciphertext);
  }

  /** One turn of the inner loop, on the n-th selected row. */
  method ProcessRow(db: TenantDatabase, slot: Slot, mode: Mode, env: Env, row: Cell, before: Tally,
                    ghost cells: seq<Cell>, ghost n: nat)
    returns (r: Result<Tally, string>)
    requires db.Valid() && RowsDone(env, mode, cells, n, db.Column(slot), before)
    requires n < |SelectedCells(cells)| && row == SelectedCells(cells)[n]
    modifies db`columns
    ensures db.Valid() && OthersKept(old(db.columns), db.columns, slot)
    ensures r.Ok? ==> RowsDone(env, mode, cells, n + 1, db.Column(slot), r.value)
    ensures r.Err? ==> ColumnResult(env, mode, cells, db.Column(slot), r)
  {
    var outcome := DecideCell(env, mode, row);
    RowStep(env, mode, cells, n, db.Column(slot), before, row, outcome);
    if mode.Apply? && outcome.WriteBlocked? {
      return Err(outcome.sqlState);
    }
    if mode.Apply? && outcome.Reencrypted? {
      db.UpdateEncryptedValue(slot, row.id, outcome.ciphertext);
    }
    r := Ok(Count(before, outcome));
  }

  /** The inner loop: the rows of one page. */
  method ProcessRows(db: TenantDatabase, slot: Slot, mode: Mode, env: Env, batch: seq<Cell>, before: Tally,
                     ghost cells: seq<Cell>, ghost start: nat, ghost end: nat)
    returns (r: Result<Tally, string>)
    requires db.Valid() && RowsDone(env, mode, cells, start, db.Column(slot), before)
    requires start <= end == start + |batch| <= |SelectedCells(cells)| && batch == SelectedCells(cells)[start..end]
    modifies db`columns
    ensures db.Valid() && OthersKept(old(db.columns), db.columns, slot)
    ensures r.Ok? ==> RowsDone(env, mode, cells, end, db.Column(slot), r.value)
    ensures r.Err? ==> ColumnResult(env, mode, cells, db.Column(slot), r)
  {
    var metrics := before;
    ghost var n := start;
    for k := 0 to |batch|
      invariant db.Valid() && OthersKept(old(db.columns), db.columns, slot)
      invariant n == start + k && RowsDone(env, mode, cells, n, db.Column(slot), metrics)
    {
      ghost var columns := db.columns;
      assert batch[k] == SelectedCells(cells)[n];
      var result := ProcessRow(db, slot, mode, env, batch[k], metrics, cells, n);
      OthersKeptTwice(old(db.columns), columns, db.columns, slot);
      if result.Err? {
        return result;
      }
      metrics, n := result.value, n + 1;
    }
    assert n == end;
    r := Ok(metrics);
  }

  /** One turn of the outer loop: fetch a page and process its rows. */
  method ProcessPage(db: TenantDatabase, slot: Slot, mode: Mode, env: Env, offset: nat, pageSize: nat, before: Tally,
                     ghost cells: seq<Cell>)
    returns (r: Result<Tally, string>, next: nat, more: bool)
    requires db.Valid() && Lawful(env.cipher) && pageSize > 0
    requires RowsDone(env, mode, cells, offset, db.Column(slot), before)
    modifies db`columns
    ensures db.Valid() && OthersKept(old(db.columns), db.columns, slot)
    ensures r.Ok? ==> RowsDone(env, mode, cells, next, db.Column(slot), r.value)
    ensures r.Ok? ==> next <= |SelectedCells(cells)|
    ensures r.Ok? && more ==> offset < next
    ensures r.Ok? && !more ==> next == |SelectedCells(cells)|
    ensures r.Err? ==> ColumnResult(env, mode, cells, db.Column(slot), r)
  {
    var batch := db.FetchEncryptedBatch(slot, offset, pageSize);
    BatchIsNext(env, mode, cells, offset, pageSize, batch, db.Column(slot), before);
    next, more := offset + |batch|, |batch| == pageSize;
    r := ProcessRows(db, slot, mode, env, batch, before, cells, offset, next);
  }

  lemma ColumnDone(env: Env, mode: Mode, cells: seq<Cell>, now: seq<Cell>, metrics: Tally)
    requires RowsDone(env, mode, cells, |SelectedCells(cells)|, now, metrics)
    ensures ColumnResult(env, mode, cells, now, Ok(metrics))
  {
    assert SelectedCells(cells)[..|SelectedCells(cells)|] == SelectedCells(cells);
    AllDone(env, cells);
  }

  /**
   * processTarget. The page size defaults to 200; each page is read again from
   * the table that earlier pages rewrote, and still every selected row is seen
   * exactly once. Apply stops with the SQLSTATE of the first refused write.
   */
  method ProcessTarget(db: TenantDatabase, job: Job, mode: Mode, env: Env, requestedPageSize: Option<int>)
    returns (r: Result<Tally, string>)
    requires db.Valid() && Lawful(env.cipher)
    modifies db`columns
    ensures db.Valid() && OthersKept(old(db.columns), db.columns, SlotOf(job))
    ensures !db.TableExists(job) ==>
              && r == Ok(Tally(ZERO.(skippedMissingTable := 1), map[]))
              && db.columns == old(db.columns)
    ensures db.TableExists(job) ==>
              ColumnResult(env, mode, old(db.Column(SlotOf(job))), db.Column(SlotOf(job)), r)
  {
    if !db.TableExists(job) {
      return Ok(Tally(ZERO.(skippedMissingTable := 1), map[]));
    }
    var slot := SlotOf(job);
    ghost var cells := db.Column(slot);
    var metrics := Tally(ZERO, map[]);
    var pageSize: nat :=
      if requestedPageSize.Some? && requestedPageSize.value > 0 then requestedPageSize.value else 200;
    var offset: nat := 0;
    NothingDone(env, mode, cells);
    while true
      invariant db.Valid() && OthersKept(old(db.columns), db.columns, slot)
      invariant offset <= |SelectedCells(cells)|
      invariant RowsDone(env, mode, cells, offset, db.Column(slot), metrics)
      decreases |SelectedCells(cells)| - offset
    {
      ghost var columns := db.columns;
      var result, next, more := ProcessPage(db, slot, mode, env, offset, pageSize, metrics, cells);
      OthersKeptTwice(old(db.columns), columns, db.columns, slot);
      if result.Err? {
        return result;
      }
      metrics := result.value;
      offset := next;
      if !more {
        break;
      }
    }
    ColumnDone(env, mode, cells, db.Column(slot), metrics);
    r := Ok(metrics);
  }

  /** The rows from `offset` on are still those of the start. */
  lemma RestAsBefore(env: Env, mode: Mode, cells: seq<Cell>, offset: nat, now: seq<Cell>, metrics: Tally)
    requires Lawful(env.cipher) && RowsDone(env, mode, cells, offset, now, metrics)
    ensures |SelectedCells(now)| == |SelectedCells(cells)|
    ensures SelectedCells(now)[offset..] == SelectedCells(cells)[offset..]
  {
    if mode.Apply? {
      var selected := SelectedCells(cells);
      SelectedUnique(cells);
      SelectedRewriteDone(env, cells, Ids(selected[..offset]));
      RestUntouched(env, selected, offset);
    }
  }

  lemma CutBatch(rows: seq<Cell>, selected: seq<Cell>, offset: nat, limit: nat, batch: seq<Cell>)
    requires limit > 0 && offset <= |rows| == |selected| && rows[offset..] == selected[offset..]
    requires batch == Page(rows, offset, limit)
    ensures offset + |batch| <= |selected| && batch == selected[offset..offset + |batch|]
    ensures |batch| < limit ==> offset + |batch| == |selected|
  {
    assert batch == rows[offset..][..|batch|];
    assert selected[offset..][..|batch|] == selected[offset..offset + |batch|];
  }

  lemma BatchIsNext(env: Env, mode: Mode, cells: seq<Cell>, offset: nat, limit: nat, batch: seq<Cell>, now: seq<Cell>,
                    metrics: Tally)
    requires Lawful(env.cipher) && limit > 0 && RowsDone(env, mode, cells, offset, now, metrics)
    requires batch == Page(SelectedCells(now), offset, limit)
    ensures offset + |batch| <= |SelectedCells(cells)|
    ensures batch == SelectedCells(cells)[offset..offset + |batch|]
    ensures |batch| < limit ==> offset + |batch| == |SelectedCells(cells)|
  {
    RestAsBefore(env, mode, cells, offset, now, metrics);
    CutBatch(SelectedCells(now), SelectedCells(cells), offset, limit, batch);
  }

  // ---- The run over all schemas and targets ---------------------------------------

  function JobsOf(schema: string, targets: seq<Target>): seq<Job> {
    seq(|targets|, i requires 0 <= i < |targets| =>
      Job(schema, targets[i].entityType, targets[i].table, targets[i].column))
  }

  /** Every target of every schema, in the order of the two loops. */
  function Work(schemas: seq<string>, targets: seq<Target>): seq<Job> {
    if schemas == [] then [] else Work(schemas[..|schemas| - 1], targets) + JobsOf(schemas[|schemas| - 1], targets)
  }

  /** The columns after an applied run; the other modes change nothing. */
  ghost function After(plan: Plan, tables: set<(string, string)>, columns: map<Slot, seq<Cell>>, jobs: seq<Job>)
    : map<Slot, seq<Cell>>
  {
    if jobs == [] then columns
    else
      var last := jobs[|jobs| - 1];
      var m := After(plan, tables, columns, jobs[..|jobs| - 1]);
      var slot := SlotOf(last);
      if (last.schema, last.table) in tables && slot in m then m[slot := RewriteAll(plan.At(slot), m[slot])] else m
  }

  ghost function ColumnsAfter(plan: Plan, mode: Mode, tables: set<(string, string)>, columns: map<Slot, seq<Cell>>,
                              jobs: seq<Job>): map<Slot, seq<Cell>>
  {
    if mode.Apply? then After(plan, tables, columns, jobs) else columns
  }

  /** What one job reports when it finds these columns. */
  function JobTally(plan: Plan, mode: Mode, tables: set<(string, string)>, columns: map<Slot, seq<Cell>>,
                    job: Job): Tally {
    if (job.schema, job.table) !in tables then Tally(ZERO.(skippedMissingTable := 1), map[])
    else TallyOf(plan.At(SlotOf(job)), mode, SelectedCells(Stored(columns, SlotOf(job))))
  }

  ghost function Metrics(plan: Plan, mode: Mode, tables: set<(string, string)>, columns: map<Slot, seq<Cell>>,
                         jobs: seq<Job>)
    : (r: seq<TargetMetrics>)
    ensures |r| == |jobs|
  {
    if jobs == [] then []
    else
      var front, last := jobs[..|jobs| - 1], jobs[|jobs| - 1];
      Metrics(plan, mode, tables, columns, front)
      + [TargetMetrics(last.schema, last.entityType,
                       JobTally(plan, mode, tables, ColumnsAfter(plan, mode, tables, columns, front), last))]
  }

  /** No write of an applied run is refused by the database. */
  ghost predicate NothingRefused(plan: Plan, tables: set<(string, string)>, columns: map<Slot, seq<Cell>>,
                                 jobs: seq<Job>)
  {
    jobs != [] ==>
      var front, last := jobs[..|jobs| - 1], jobs[|jobs| - 1];
      && NothingRefused(plan, tables, columns, front)
      && ((last.schema, last.table) in tables ==>
            FirstBlocked(plan.At(SlotOf(last)),
                         SelectedCells(Stored(After(plan, tables, columns, front), SlotOf(last)))).None?)
  }

  /** The columns that an applied run leaves, and the refusal that stopped it. */
  datatype Stop = Stop(columns: map<Slot, seq<Cell>>, refused: Option<string>)

  /** An applied run handles job after job up to the first refused write. */
  ghost function Left(plan: Plan, tables: set<(string, string)>, columns: map<Slot, seq<Cell>>, jobs: seq<Job>): Stop {
    if jobs == [] then Stop(columns, None)
    else
      var before, last := Left(plan, tables, columns, jobs[..|jobs| - 1]), jobs[|jobs| - 1];
      if before.refused.Some? || (last.schema, last.table) !in tables then before
      else LeftByJob(plan, before.columns, SlotOf(last))
  }

  ghost function LeftByJob(plan: Plan, columns: map<Slot, seq<Cell>>, slot: Slot): Stop {
    var cells := Stored(columns, slot);
    Stop(if slot in columns then columns[slot := LeftColumn(plan.At(slot), cells)] else columns,
         FirstBlocked(plan.At(slot), SelectedCells(cells)))
  }

  lemma AcceptedColumn(env: Env, cells: seq<Cell>)
    requires UniqueIds(cells) && FirstBlocked(env, SelectedCells(cells)).None?
    ensures LeftColumn(env, cells) == RewriteAll(env, cells)
  {
    var selected := SelectedCells(cells);
    assert selected[..|selected|] == selected;
    AllDone(env, cells);
  }

  function Plus(a: Counts, b: Counts): Counts {
    Counts(a.candidates + b.candidates, a.reencrypted + b.reencrypted, a.skippedAlreadyPii + b.skippedAlreadyPii,
           a.skippedMissingTable + b.skippedMissingTable, a.nonCiphertext + b.nonCiphertext,
           a.decryptErrors + b.decryptErrors, a.mfaOnlyRemaining + b.mfaOnlyRemaining,
           a.piiPreviousRemaining + b.piiPreviousRemaining, a.writeBlocked + b.writeBlocked)
  }

  function Total(targets: seq<TargetMetrics>): Counts {
    if targets == [] then ZERO else Plus(Total(targets[..|targets| - 1]), targets[|targets| - 1].tally.counts)
  }

  method SumMetrics(targets: seq<TargetMetrics>) returns (totals: Counts)
    ensures totals == Total(targets)
  {
    totals := ZERO;
    for i := 0 to |targets|
      invariant totals == Total(targets[..i])
    {
      assert targets[..i + 1][..i] == targets[..i];
      totals := Plus(totals, targets[i].tally.counts);
    }
    assert targets[..|targets|] == targets;
  }

  function Pending(mode: Mode, t: Counts): nat {
    (if mode.DryRun? then t.reencrypted else 0)
    + t.skippedMissingTable + t.nonCiphertext + t.decryptErrors + t.writeBlocked
    + (if mode.VerifyPiiOnly? then t.mfaOnlyRemaining + t.piiPreviousRemaining else 0)
  }

  predicate Blocking(mode: Mode, t: Counts) {
    || t.skippedMissingTable > 0
    || t.writeBlocked > 0
    || (if mode.VerifyPiiOnly?
        then t.nonCiphertext > 0 || t.decryptErrors > 0 || t.mfaOnlyRemaining > 0 || t.piiPreviousRemaining > 0
        else t.nonCiphertext > 0 || t.decryptErrors > 0)
  }

  datatype Target = Target(entityType: string, table: string, column: string)

  datatype RunError = PublicSchema | SchemaNotFound | WriteRefused(sqlState: string)

  function Filter(schemas: seq<string>, wanted: string): seq<string> {
    if schemas == [] then []
    else Filter(schemas[..|schemas| - 1], wanted)
         + (if schemas[|schemas| - 1] == wanted then [wanted] else [])
  }

  /** The schemas of a run: all eligible ones, or the trimmed filter's. */
  function Schemas(filter: Option<string>, eligible: seq<string>): Result<seq<string>, RunError> {
    var wanted := if filter.Some? then Trim(filter.value) else "";
    if wanted == "public" then Err(PublicSchema)
    else if wanted == "" then Ok(eligible)
    else if Filter(eligible, wanted) == [] then Err(SchemaNotFound)
    else Ok(Filter(eligible, wanted))
  }

  ghost predicate JobsDone(plan: Plan, mode: Mode, tables: set<(string, string)>, before: map<Slot, seq<Cell>>,
                           jobs: seq<Job>, now: map<Slot, seq<Cell>>, targets: seq<TargetMetrics>)
  {
    && now == ColumnsAfter(plan, mode, tables, before, jobs)
    && targets == Metrics(plan, mode, tables, before, jobs)
    && (mode.Apply? ==> NothingRefused(plan, tables, before, jobs))
  }

  lemma JobStep(plan: Plan, mode: Mode, tables: set<(string, string)>, before: map<Slot, seq<Cell>>, jobs: seq<Job>,
                now: map<Slot, seq<Cell>>, targets: seq<TargetMetrics>, job: Job, now': map<Slot, seq<Cell>>, t: Tally,
                jobs': seq<Job>, targets': seq<TargetMetrics>)
    requires JobsDone(plan, mode, tables, before, jobs, now, targets)
    requires jobs' == jobs + [job] && targets' == targets + [TargetMetrics(job.schema, job.entityType, t)]
    requires OthersKept(now, now', SlotOf(job))
    requires (job.schema, job.table) !in tables ==> now' == now && t == Tally(ZERO.(skippedMissingTable := 1), map[])
    requires (job.schema, job.table) in tables ==>
               ColumnResult(plan.At(SlotOf(job)), mode, Stored(now, SlotOf(job)), Stored(now', SlotOf(job)), Ok(t))
    ensures JobsDone(plan, mode, tables, before, jobs', now', targets')
  {
    assert jobs'[..|jobs'| - 1] == jobs;
    OneColumnChanged(now, now', SlotOf(job));
  }

  lemma OneColumnChanged(now: map<Slot, seq<Cell>>, now': map<Slot, seq<Cell>>, slot: Slot)
    requires OthersKept(now, now', slot)
    ensures now' == if slot in now then now[slot := Stored(now', slot)] else now
    ensures Stored(now', slot) == Stored(now, slot) ==> now' == now
  {
    forall s | s in now' ensures Stored(now', s) == now'[s] && Stored(now, s) == now[s] {}
  }

  /** The applied run met a refused write: that one is reported, and the columns are as they were left there. */
  ghost predicate StoppedAt(plan: Plan, mode: Mode, tables: set<(string, string)>, before: map<Slot, seq<Cell>>,
                            jobs: seq<Job>, now: map<Slot, seq<Cell>>, error: RunError)
  {
    && mode.Apply? && !NothingRefused(plan, tables, before, jobs)
    && error.WriteRefused? && Left(plan, tables, before, jobs) == Stop(now, Some(error.sqlState))
  }

  /** A run that reaches its end is left with every column rewritten, and one that does not is refused a write. */
  lemma {:induction false} LeftIffRefused(plan: Plan, tables: set<(string, string)>, columns: map<Slot, seq<Cell>>,
                                          jobs: seq<Job>)
    requires UniqueColumns(columns)
    ensures NothingRefused(plan, tables, columns, jobs) <==> Left(plan, tables, columns, jobs).refused.None?
    ensures NothingRefused(plan, tables, columns, jobs) ==>
              Left(plan, tables, columns, jobs).columns == After(plan, tables, columns, jobs)
    ensures UniqueColumns(After(plan, tables, columns, jobs))
  {
    if jobs != [] {
      var front, last := jobs[..|jobs| - 1], jobs[|jobs| - 1];
      LeftIffRefused(plan, tables, columns, front);
      AfterJob(plan, tables, After(plan, tables, columns, front), last);
    }
  }

  lemma RewriteAllUnique(env: Env, cells: seq<Cell>)
    requires UniqueIds(cells)
    ensures UniqueIds(RewriteAll(env, cells))
  {
    assert forall c :: Rewrite(env, c).id == c.id;
  }

  lemma AfterJob(plan: Plan, tables: set<(string, string)>, columns: map<Slot, seq<Cell>>, job: Job)
    requires UniqueColumns(columns)
    ensures var slot := SlotOf(job);
            var now := if slot in columns then columns[slot := RewriteAll(plan.At(slot), columns[slot])] else columns;
            && UniqueColumns(now)
            && (LeftByJob(plan, columns, slot).refused.None? ==> LeftByJob(plan, columns, slot).columns == now)
  {
    var slot := SlotOf(job);
    if slot in columns {
      RewriteAllUnique(plan.At(slot), columns[slot]);
      if FirstBlocked(plan.At(slot), SelectedCells(columns[slot])).None? {
        AcceptedColumn(plan.At(slot), columns[slot]);
      }
    }
  }

  /** The job whose write is refused is the last one of the run. */
  lemma RefusedJob(plan: Plan, tables: set<(string, string)>, before: map<Slot, seq<Cell>>, jobs: seq<Job>,
                   now: map<Slot, seq<Cell>>, job: Job, now': map<Slot, seq<Cell>>, e: string, jobs': seq<Job>)
    requires UniqueColumns(before) && jobs' == jobs + [job] && (job.schema, job.table) in tables
    requires now == After(plan, tables, before, jobs) && NothingRefused(plan, tables, before, jobs)
    requires OthersKept(now, now', SlotOf(job))
    requires ColumnResult(plan.At(SlotOf(job)), Apply, Stored(now, SlotOf(job)), Stored(now', SlotOf(job)), Err(e))
    ensures Left(plan, tables, before, jobs') == Stop(now', Some(e))
  {
    LeftIffRefused(plan, tables, before, jobs);
    LeftSnoc(plan, tables, before, jobs, job, jobs');
    OneColumnChanged(now, now', SlotOf(job));
  }

  lemma LeftSnoc(plan: Plan, tables: set<(string, string)>, columns: map<Slot, seq<Cell>>, jobs: seq<Job>, job: Job,
                 jobs': seq<Job>)
    requires jobs' == jobs + [job] && (job.schema, job.table) in tables
    requires Left(plan, tables, columns, jobs).refused.None?
    ensures Left(plan, tables, columns, jobs')
            == LeftByJob(plan, Left(plan, tables, columns, jobs).columns, SlotOf(job))
  {
    assert jobs'[..|jobs'| - 1] == jobs;
  }

  /** Jobs after a refused write are not reached. */
  lemma {:induction false} RefusedStays(plan: Plan, tables: set<(string, string)>, before: map<Slot, seq<Cell>>,
                                        jobs: seq<Job>, more: seq<Job>)
    requires Left(plan, tables, before, jobs).refused.Some?
    ensures Left(plan, tables, before, jobs + more) == Left(plan, tables, before, jobs)
  {
    if more == [] {
      assert jobs + more == jobs;
    } else {
      var n := |more| - 1;
      RefusedStays(plan, tables, before, jobs, more[..n]);
      assert (jobs + more)[..|jobs + more| - 1] == jobs + more[..n];
    }
  }

  /** A refusal among the jobs of one schema ends the run of all of them. */
  lemma RefusedInSchema(plan: Plan, tables: set<(string, string)>, before: map<Slot, seq<Cell>>, done: seq<Job>,
                        now: map<Slot, seq<Cell>>, job: Job, now': map<Slot, seq<Cell>>, e: string, rest: seq<Job>,
                        jobs: seq<Job>)
    requires UniqueColumns(before) && jobs == done + [job] + rest && (job.schema, job.table) in tables
    requires now == After(plan, tables, before, done) && NothingRefused(plan, tables, before, done)
    requires OthersKept(now, now', SlotOf(job))
    requires ColumnResult(plan.At(SlotOf(job)), Apply, Stored(now, SlotOf(job)), Stored(now', SlotOf(job)), Err(e))
    ensures StoppedAt(plan, Apply, tables, before, jobs, now', WriteRefused(e))
  {
    RefusedJob(plan, tables, before, done, now, job, now', e, done + [job]);
    RefusedStays(plan, tables, before, done + [job], rest);
    LeftIffRefused(plan, tables, before, jobs);
  }

  /** The jobs of a schema up to and after the one at hand. */
  lemma JobAt(jobs: seq<Job>, part: seq<Job>, j: nat, done: seq<Job>, job: Job)
    requires j < |part| && done == jobs + part[..j] && job == part[j]
    ensures done + [job] == jobs + part[..j + 1] && jobs + part == done + [job] + part[j + 1..]
  {
  }

  lemma {:induction false} WorkPrefix(schemas: seq<string>, targets: seq<Target>, i: nat) returns (rest: seq<Job>)
    requires i <= |schemas|
    ensures Work(schemas, targets) == Work(schemas[..i], targets) + rest
    decreases |schemas|
  {
    if i == |schemas| {
      rest := [];
      assert schemas[..i] == schemas;
    } else {
      var front := schemas[..|schemas| - 1];
      var part := WorkPrefix(front, targets, i);
      assert front[..i] == schemas[..i];
      rest := part + JobsOf(schemas[|schemas| - 1], targets);
    }
  }

  /** One target of one schema. */
  method ProcessJob(db: TenantDatabase, job: Job, mode: Mode, plan: Plan, pageSize: Option<int>)
    returns (r: Result<Tally, string>)
    requires db.Valid() && Lawful(plan.cipher)
    modifies db`columns
    ensures db.Valid()
    ensures OthersKept(old(db.columns), db.columns, SlotOf(job))
    ensures !db.TableExists(job) ==>
              r == Ok(Tally(ZERO.(skippedMissingTable := 1), map[])) && db.columns == old(db.columns)
    ensures db.TableExists(job) ==>
              ColumnResult(plan.At(SlotOf(job)), mode, Stored(old(db.columns), SlotOf(job)),
                           Stored(db.columns, SlotOf(job)), r)
  {
    r := ProcessTarget(db, job, mode, plan.At(SlotOf(job)), pageSize);
  }

  /** The inner loop of runMfaToPii: every target of one schema. */
  method ProcessSchema(db: TenantDatabase, schema: string, plan: Plan, mode: Mode, targets: seq<Target>,
                       pageSize: Option<int>, soFar: seq<TargetMetrics>, ghost before: map<Slot, seq<Cell>>,
                       ghost jobs: seq<Job>, ghost jobs': seq<Job>)
    returns (r: Result<seq<TargetMetrics>, RunError>)
    requires db.Valid() && Lawful(plan.cipher)
    requires JobsDone(plan, mode, db.tables, before, jobs, db.columns, soFar)
    requires jobs' == jobs + JobsOf(schema, targets) && UniqueColumns(before)
    modifies db`columns
    ensures db.Valid()
    ensures r.Ok? ==> JobsDone(plan, mode, db.tables, before, jobs', db.columns, r.value)
    ensures r.Err? ==> StoppedAt(plan, mode, db.tables, before, jobs', db.columns, r.error)
  {
    var metrics := soFar;
    ghost var inSchema := JobsOf(schema, targets);
    ghost var done := jobs;
    for j := 0 to |targets|
      invariant db.Valid() && done == jobs + inSchema[..j]
      invariant JobsDone(plan, mode, db.tables, before, done, db.columns, metrics)
    {
      var job := Job(schema, targets[j].entityType, targets[j].table, targets[j].column);
      ghost var now := db.columns;
      ghost var done', rest := done + [job], inSchema[j + 1..];
      JobAt(jobs, inSchema, j, done, job);
      var t := ProcessJob(db, job, mode, plan, pageSize);
      if t.Err? {
        RefusedInSchema(plan, db.tables, before, done, now, job, db.columns, t.error, rest, jobs');
        return Err(WriteRefused(t.error));
      }
      var metrics' := metrics + [TargetMetrics(job.schema, job.entityType, t.value)];
      JobStep(plan, mode, db.tables, before, done, now, metrics, job, db.columns, t.value, done', metrics');
      metrics := metrics';
      done := done';
    }
    assert done == jobs' by {
      assert inSchema[..|targets|] == inSchema;
    }
    r := Ok(metrics);
  }

  /** The outer loop of runMfaToPii. */
  method ProcessSchemas(db: TenantDatabase, schemas: seq<string>, plan: Plan, mode: Mode, targets: seq<Target>,
                        pageSize: Option<int>)
    returns (r: Result<seq<TargetMetrics>, RunError>)
    requires db.Valid() && Lawful(plan.cipher)
    modifies db`columns
    ensures db.Valid()
    ensures r.Ok? ==> JobsDone(plan, mode, db.tables, old(db.columns), Work(schemas, targets), db.columns, r.value)
    ensures r.Err? ==> StoppedAt(plan, mode, db.tables, old(db.columns), Work(schemas, targets), db.columns, r.error)
  {
    var metrics: seq<TargetMetrics> := [];
    ghost var jobs: seq<Job> := [];
    for i := 0 to |schemas|
      invariant db.Valid() && jobs == Work(schemas[..i], targets)
      invariant JobsDone(plan, mode, db.tables, old(db.columns), jobs, db.columns, metrics)
    {
      assert schemas[..i + 1][..i] == schemas[..i];
      ghost var jobs' := Work(schemas[..i + 1], targets);
      var result := ProcessSchema(db, schemas[i], plan, mode, targets, pageSize, metrics, old(db.columns), jobs, jobs');
      if result.Err? {
        ghost var rest := WorkPrefix(schemas, targets, i + 1);
        RefusedStays(plan, db.tables, old(db.columns), jobs', rest);
        LeftIffRefused(plan, db.tables, old(db.columns), Work(schemas, targets));
        return Err(result.error);
      }
      metrics := result.value;
      jobs := jobs';
    }
    assert schemas[..|schemas|] == schemas;
    r := Ok(metrics);
  }

  /**
   * runMfaToPii. It ends with a report unless the request is refused or, in apply,
   * a write is; then it leaves exactly what it had rewritten before.
   */
  method RunMfaToPii(db: TenantDatabase, plan: Plan, mode: Mode, schemaFilter: Option<string>, eligible: seq<string>,
                     targets: seq<Target>, pageSize: Option<int>)
    returns (r: Result<Report, RunError>)
    requires db.Valid() && Lawful(plan.cipher)
    modifies db`columns
    ensures db.Valid()
    ensures var chosen := Schemas(schemaFilter, eligible);
            match r
            case Err(e) =>
              if chosen.Err? then e == chosen.error && db.columns == old(db.columns)
              else StoppedAt(plan, mode, db.tables, old(db.columns), Work(chosen.value, targets), db.columns, e)
            case Ok(report) =>
              && chosen.Ok?
              && JobsDone(plan, mode, db.tables, old(db.columns), Work(chosen.value, targets), db.columns,
                          report.targets)
              && report == ReportOf(mode, report.targets)
  {
    var chosen := Schemas(schemaFilter, eligible);
    if chosen.Err? {
      return Err(chosen.error);
    }
    var result := ProcessSchemas(db, chosen.value, plan, mode, targets, pageSize);
    if result.Err? {
      return Err(result.error);
    }
    var totals := SumMetrics(result.value);
    r := Ok(Report(mode, result.value, totals, Pending(mode, totals), Blocking(mode, totals)));
  }

  function ReportOf(mode: Mode, targets: seq<TargetMetrics>): Report {
    Report(mode, targets, Total(targets), Pending(mode, Total(targets)), Blocking(mode, Total(targets)))
  }

  // ---- What the report means -----------------------------------------------------

  /** Outside a rehearsal something blocks exactly when something is pending. */
  lemma BlockingIffPending(mode: Mode, targets: seq<TargetMetrics>)
    ensures var report := ReportOf(mode, targets);
            && (!mode.DryRun? ==> (report.hasBlockingIssues <==> report.pending > 0))
            && (mode.DryRun? ==> (report.hasBlockingIssues <==> report.pending > report.totals.reencrypted))
  {
  }
}
