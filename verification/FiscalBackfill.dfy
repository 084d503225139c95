/**
 * Encryption of legacy fiscal documents with keyset paging: rows leave the
 * filter of the page query while the pages are being read
 * (apps/api/src/cli/backfill-fiscal-document.ts).
 */
module FiscalBackfill {
  import opened Options

  datatype Mode = DryRun | Apply

  /** `id` is the uuid as the database orders it. */
  datatype Row = Row(id: nat, fiscalDocument: Option<string>, encrypted: Option<string>, hmac: Option<string>)

  /**
   * crypto.encrypt: a value to store, null, or a thrown error for a document that
   * normalises to nothing. The service declines only null, which the page query
   * leaves out; the loop is followed for any crypto that its interface allows.
   */
  datatype Encryption = Store(encrypted: string, hmac: string) | Declined | Throws

  /** The row's id stands for the IV drawn for it, so equal documents may get different ciphertexts. */
  type Crypto = (nat, string) -> Encryption

  datatype Counts = Counts(seen: nat, wouldEncrypt: nat, encrypted: nat, plaintextRemaining: nat)

  const BATCH_SIZE: nat := 100

  ghost predicate InIdOrder(rows: seq<Row>) {
    forall i, j :: 0 <= i < j < |rows| ==> rows[i].id < rows[j].id
  }

  /** WHERE fiscal_document IS NOT NULL. */
  function Plain(rows: seq<Row>): seq<Row> {
    if rows == [] then []
    else (if rows[0].fiscalDocument.Some? then [rows[0]] else []) + Plain(rows[1..])
  }

  /** ... AND (last IS NULL OR id > last). */
  function PlainAbove(rows: seq<Row>, last: Option<nat>): seq<Row> {
    if rows == [] then []
    else (if rows[0].fiscalDocument.Some? && (last.Some? ==> rows[0].id > last.value) then [rows[0]] else [])
         + PlainAbove(rows[1..], last)
  }

  predicate Accepts(crypto: Crypto, r: Row) {
    r.fiscalDocument.Some? && crypto(r.id, r.fiscalDocument.value).Store?
  }

  /** A row after its turn in apply. */
  function Rewrite(crypto: Crypto, r: Row): Row {
    if Accepts(crypto, r) then
      var e := crypto(r.id, r.fiscalDocument.value);
      Row(r.id, None, Some(e.encrypted), Some(e.hmac))
    else r
  }

  function RewriteAll(crypto: Crypto, rows: seq<Row>): (r: seq<Row>)
    ensures |r| == |rows|
  {
    seq(|rows|, i requires 0 <= i < |rows| => Rewrite(crypto, rows[i]))
  }

  function Accepted(crypto: Crypto, rows: seq<Row>): nat {
    if rows == [] then 0
    else Accepted(crypto, rows[..|rows| - 1]) + (if Accepts(crypto, rows[|rows| - 1]) then 1 else 0)
  }

  ghost predicate SomeThrows(crypto: Crypto, rows: seq<Row>) {
    exists r :: r in rows && r.fiscalDocument.Some? && crypto(r.id, r.fiscalDocument.value).Throws?
  }

  ghost function RewriteDone(crypto: Crypto, rows: seq<Row>, done: set<nat>): seq<Row> {
    seq(|rows|, i requires 0 <= i < |rows| => if rows[i].id in done then Rewrite(crypto, rows[i]) else rows[i])
  }

  ghost function Ids(rows: seq<Row>): set<nat> {
    set r | r in rows :: r.id
  }

  // ---- The page query on a table that changes underneath it -------------------------

  lemma {:induction false} PlainMembers(rows: seq<Row>)
    ensures forall r :: r in Plain(rows) <==> r in rows && r.fiscalDocument.Some?
  {
    if rows != [] {
      PlainMembers(rows[1..]);
      assert rows == [rows[0]] + rows[1..];
    }
  }

  lemma {:induction false} PlainOrder(rows: seq<Row>)
    requires InIdOrder(rows)
    ensures InIdOrder(Plain(rows))
  {
    if rows != [] {
      PlainOrder(rows[1..]);
      HeadFirst(rows);
    }
  }

  lemma HeadFirst(rows: seq<Row>)
    requires InIdOrder(rows) && rows != []
    ensures InIdOrder(rows[1..])
    ensures forall r :: r in rows[1..] ==> rows[0].id < r.id
    ensures forall r :: r in Plain(rows[1..]) ==> rows[0].id < r.id
  {
    PlainMembers(rows[1..]);
  }

  /** Rows at or below the last id do not matter to the next page, whatever happened to them. */
  lemma {:induction false} AboveUnaffected(crypto: Crypto, rows: seq<Row>, done: set<nat>, last: nat)
    requires forall id :: id in done ==> id <= last
    ensures PlainAbove(RewriteDone(crypto, rows, done), Some(last)) == PlainAbove(rows, Some(last))
  {
    if rows != [] {
      AboveUnaffected(crypto, rows[1..], done, last);
      assert RewriteDone(crypto, rows, done)[1..] == RewriteDone(crypto, rows[1..], done);
    }
  }

  lemma {:induction false} AllAbove(rows: seq<Row>, last: Option<nat>)
    requires forall r :: r in rows && last.Some? ==> r.id > last.value
    ensures PlainAbove(rows, last) == Plain(rows)
  {
    if rows != [] {
      assert rows[0] in rows;
      AllAbove(rows[1..], last);
    }
  }

  /** Above the n-th plaintext row lie exactly the later plaintext rows. */
  lemma {:induction false} AboveIsSuffix(rows: seq<Row>, n: nat)
    requires InIdOrder(rows) && 0 < n <= |Plain(rows)|
    ensures PlainAbove(rows, Some(Plain(rows)[n - 1].id)) == Plain(rows)[n..]
  {
    var last := Plain(rows)[n - 1].id;
    var rest := rows[1..];
    HeadFirst(rows);
    if rows[0].fiscalDocument.None? {
      assert Plain(rows) == Plain(rest);
      AboveIsSuffix(rest, n);
    } else if n == 1 {
      AllAbove(rest, Some(last));
    } else {
      assert Plain(rows)[n - 1] == Plain(rest)[n - 2];
      AboveIsSuffix(rest, n - 1);
      assert Plain(rows)[n..] == Plain(rest)[n - 1..];
    }
  }

  lemma IdsGrow(plain: seq<Row>, n: nat)
    requires InIdOrder(plain) && n < |plain|
    ensures Ids(plain[..n + 1]) == Ids(plain[..n]) + {plain[n].id}
    ensures forall id :: id in Ids(plain[..n]) ==> id < plain[n].id
  {
    assert plain[..n + 1] == plain[..n] + [plain[n]];
  }

  lemma SameIdSameRow(rows: seq<Row>, c: Row)
    requires InIdOrder(rows) && c in rows
    ensures forall d :: d in rows && d.id == c.id ==> d == c
  {
  }

  /** Writing one more row is one more id in the set; a declined row is written by nobody. */
  lemma OneMore(crypto: Crypto, rows: seq<Row>, c: Row, done: set<nat>)
    requires forall d :: d in rows && d.id == c.id ==> d == c
    requires c.fiscalDocument.Some? && c.id !in done
    ensures RewriteDone(crypto, rows, done + {c.id})
            == UpdateById(RewriteDone(crypto, rows, done), c.id, Rewrite(crypto, c))
    ensures !Accepts(crypto, c) ==> RewriteDone(crypto, rows, done + {c.id}) == RewriteDone(crypto, rows, done)
  {
    forall i | 0 <= i < |rows| && rows[i].id == c.id ensures rows[i] == c {
      assert rows[i] in rows;
    }
    assert forall r :: Rewrite(crypto, r).id == r.id;
  }

  /** UPDATE ... WHERE id = $1 AND fiscal_document IS NOT NULL. */
  function UpdateById(rows: seq<Row>, id: nat, row: Row): seq<Row> {
    seq(|rows|, i requires 0 <= i < |rows| =>
      if rows[i].id == id && rows[i].fiscalDocument.Some? then row else rows[i])
  }

  /** The first n plaintext rows have had their turn. */
  ghost predicate Progress(crypto: Crypto, mode: Mode, rows: seq<Row>, n: nat, now: seq<Row>, encrypted: nat) {
    && n <= |Plain(rows)|
    && now == (if mode.Apply? then RewriteDone(crypto, rows, Ids(Plain(rows)[..n])) else rows)
    && encrypted == (if mode.Apply? then Accepted(crypto, Plain(rows)[..n]) else 0)
    && (mode.Apply? ==> !SomeThrows(crypto, Plain(rows)[..n]))
  }

  class FiscalTable {
    var rows: seq<Row>

    constructor (rows: seq<Row>)
      ensures this.rows == rows
    {
      this.rows := rows;
    }

    function FetchPage(last: Option<nat>): seq<Row>
      reads this
    {
      var above := PlainAbove(rows, last);
      if |above| <= BATCH_SIZE then above else above[..BATCH_SIZE]
    }

    function CountPlaintext(): nat
      reads this
    {
      |Plain(rows)|
    }

    method Update(id: nat, encrypted: string, hmac: string) returns (updated: nat)
      modifies this
      ensures rows == UpdateById(old(rows), id, Row(id, None, Some(encrypted), Some(hmac)))
      ensures updated == if exists r :: r in old(rows) && r.id == id && r.fiscalDocument.Some? then 1 else 0
    {
      updated := if exists r :: r in rows && r.id == id && r.fiscalDocument.Some? then 1 else 0;
      rows := UpdateById(rows, id, Row(id, None, Some(encrypted), Some(hmac)));
    }
  }

  // ---- The job on one table -------------------------------------------------------------

  lemma NothingDone(crypto: Crypto, mode: Mode, rows: seq<Row>)
    requires InIdOrder(rows)
    ensures Progress(crypto, mode, rows, 0, rows, 0)
  {
    assert Plain(rows)[..0] == [];
    assert RewriteDone(crypto, rows, {}) == rows;
  }

  /** The page after the n-th plaintext row is the next BATCH_SIZE of them, as they were before the job. */
  lemma PageIsNext(crypto: Crypto, mode: Mode, rows: seq<Row>, n: nat, now: seq<Row>, encrypted: nat, last: Option<nat>)
    requires InIdOrder(rows) && Progress(crypto, mode, rows, n, now, encrypted)
    requires last == if n == 0 then None else Some(Plain(rows)[n - 1].id)
    ensures PlainAbove(now, last) == Plain(rows)[n..]
  {
    if n == 0 {
      AllAbove(now, None);
      assert Ids([]) == {};
      assert RewriteDone(crypto, rows, {}) == rows;
      assert Plain(rows)[..0] == [];
    } else {
      PlainOrder(rows);
      IdsGrow(Plain(rows), n - 1);
      AboveIsSuffix(rows, n);
      AboveUnaffected(crypto, rows, Ids(Plain(rows)[..n]), Plain(rows)[n - 1].id);
    }
  }

  /** The n-th plaintext row: one row of the table, not among the first n. */
  lemma NextRow(rows: seq<Row>, n: nat)
    requires InIdOrder(rows) && n < |Plain(rows)|
    ensures var plain, c := Plain(rows), Plain(rows)[n];
            && c in rows && c.fiscalDocument.Some?
            && (forall d :: d in rows && d.id == c.id ==> d == c)
            && Ids(plain[..n + 1]) == Ids(plain[..n]) + {c.id} && c.id !in Ids(plain[..n])
            && plain[..n + 1] == plain[..n] + [c]
  {
    PlainRow(rows, n);
    SameIdSameRow(rows, Plain(rows)[n]);
    PlainOrder(rows);
    IdsGrow(Plain(rows), n);
    Extend(Plain(rows), n);
  }

  lemma PlainRow(rows: seq<Row>, n: nat)
    requires n < |Plain(rows)|
    ensures Plain(rows)[n] in rows && Plain(rows)[n].fiscalDocument.Some?
  {
    PlainMembers(rows);
    assert Plain(rows)[n] in Plain(rows);
  }

  lemma Extend(s: seq<Row>, n: nat)
    requires n < |s|
    ensures s[..n + 1] == s[..n] + [s[n]]
  {
  }

  lemma StepDeclined(crypto: Crypto, rows: seq<Row>, n: nat, now: seq<Row>, encrypted: nat)
    requires InIdOrder(rows) && Progress(crypto, Apply, rows, n, now, encrypted) && n < |Plain(rows)|
    requires var c := Plain(rows)[n]; c.fiscalDocument.Some? && crypto(c.id, c.fiscalDocument.value).Declined?
    ensures Progress(crypto, Apply, rows, n + 1, now, encrypted)
  {
    NextRow(rows, n);
    var plain, c := Plain(rows), Plain(rows)[n];
    OneMore(crypto, rows, c, Ids(plain[..n]));
    assert plain[..n + 1][..n] == plain[..n];
  }

  lemma StepStored(crypto: Crypto, rows: seq<Row>, n: nat, now: seq<Row>, encrypted: nat, now': seq<Row>)
    requires InIdOrder(rows) && Progress(crypto, Apply, rows, n, now, encrypted) && n < |Plain(rows)|
    requires Accepts(crypto, Plain(rows)[n])
    requires now' == UpdateById(now, Plain(rows)[n].id, Rewrite(crypto, Plain(rows)[n]))
    ensures Progress(crypto, Apply, rows, n + 1, now', encrypted + 1)
  {
    NextRow(rows, n);
    var plain, c := Plain(rows), Plain(rows)[n];
    OneMore(crypto, rows, c, Ids(plain[..n]));
    assert plain[..n + 1][..n] == plain[..n];
  }

  /** Its turn has not come, so the row is still plaintext in the table. */
  lemma StillPlain(crypto: Crypto, rows: seq<Row>, n: nat, now: seq<Row>, encrypted: nat)
    requires InIdOrder(rows) && Progress(crypto, Apply, rows, n, now, encrypted) && n < |Plain(rows)|
    ensures Plain(rows)[n].fiscalDocument.Some? && Plain(rows)[n] in now
    ensures Plain(rows)[n] in Plain(rows)
  {
    NextRow(rows, n);
    var k :| 0 <= k < |rows| && rows[k] == Plain(rows)[n];
    assert now[k] == rows[k];
  }

  lemma RehearsePage(crypto: Crypto, mode: Mode, rows: seq<Row>, n: nat, end: nat, now: seq<Row>, encrypted: nat)
    requires mode.DryRun? && Progress(crypto, mode, rows, n, now, encrypted) && end <= |Plain(rows)|
    ensures Progress(crypto, mode, rows, end, now, encrypted)
  {
  }

  lemma WholeSlice(s: seq<Row>, n: nat)
    requires n == |s|
    ensures s[..n] == s
  {
  }

  lemma JoinSlices(s: seq<Row>, a: nat, b: nat)
    requires a <= b <= |s|
    ensures s[..a] + s[a..b] == s[..b]
  {
  }

  lemma AllDone(crypto: Crypto, mode: Mode, rows: seq<Row>, now: seq<Row>, encrypted: nat, total: nat)
    requires total == |Plain(rows)| && Progress(crypto, mode, rows, total, now, encrypted)
    ensures TableResult(crypto, mode, rows, now, Ok(Counts(total, total, encrypted, |Plain(now)|)))
  {
    var plain := Plain(rows);
    PlainMembers(rows);
    assert plain[..|plain|] == plain;
    forall i | 0 <= i < |rows|
      ensures RewriteDone(crypto, rows, Ids(plain))[i] == Rewrite(crypto, rows[i])
    {
      if rows[i].fiscalDocument.Some? {
        assert rows[i] in plain;
      }
    }
  }

  /** Every plaintext row is seen once; apply rewrites those that crypto accepts, or stops at a thrown error. */
  ghost predicate TableResult(crypto: Crypto, mode: Mode, rows: seq<Row>, now: seq<Row>, r: Result<Counts, ()>) {
    match r
    case Err(_) => mode.Apply? && SomeThrows(crypto, Plain(rows))
    case Ok(c) =>
      && (mode.Apply? ==> !SomeThrows(crypto, Plain(rows)))
      && now == (if mode.Apply? then RewriteAll(crypto, rows) else rows)
      && c.seen == c.wouldEncrypt == |Plain(rows)|
      && c.encrypted == (if mode.Apply? then Accepted(crypto, Plain(rows)) else 0)
      && c.plaintextRemaining == |Plain(now)|
  }

  /** One row of a page in apply. */
  method ProcessRow(table: FiscalTable, crypto: Crypto, row: Row, before: nat, ghost rows: seq<Row>, ghost n: nat)
    returns (r: Result<nat, ()>)
    requires InIdOrder(rows) && Progress(crypto, Apply, rows, n, table.rows, before)
    requires n < |Plain(rows)| && row == Plain(rows)[n]
    modifies table
    ensures r.Ok? ==> Progress(crypto, Apply, rows, n + 1, table.rows, r.value)
    ensures r.Err? ==> SomeThrows(crypto, Plain(rows))
  {
    ghost var now := table.rows;
    StillPlain(crypto, rows, n, now, before);
    match crypto(row.id, row.fiscalDocument.value) {
      case Throws =>
        r := Err(());
      case Declined =>
        StepDeclined(crypto, rows, n, now, before);
        r := Ok(before);
      case Store(value, hmac) =>
        var updated := table.Update(row.id, value, hmac);
        StepStored(crypto, rows, n, now, before, table.rows);
        r := Ok(before + updated);
    }
  }

  /** The loop over one page, which only apply runs. */
  method ProcessPage(table: FiscalTable, crypto: Crypto, mode: Mode, page: seq<Row>, before: nat, ghost rows: seq<Row>,
                     ghost start: nat, ghost end: nat)
    returns (r: Result<nat, ()>)
    requires InIdOrder(rows) && Progress(crypto, mode, rows, start, table.rows, before)
    requires end == start + |page| && end <= |Plain(rows)| && page == Plain(rows)[start..end]
    modifies table
    ensures r.Ok? ==> Progress(crypto, mode, rows, end, table.rows, r.value)
    ensures r.Err? ==> mode.Apply? && SomeThrows(crypto, Plain(rows))
  {
    if mode.DryRun? {
      RehearsePage(crypto, mode, rows, start, end, table.rows, before);
      return Ok(before);
    }
    r := ApplyPage(table, crypto, page, before, rows, start, end);
  }

  lemma SliceAt(s: seq<Row>, a: nat, b: nat, k: nat)
    requires a + k < b <= |s|
    ensures s[a..b][k] == s[a + k]
  {
  }

  method ApplyPage(table: FiscalTable, crypto: Crypto, page: seq<Row>, before: nat, ghost rows: seq<Row>,
                   ghost start: nat, ghost end: nat)
    returns (r: Result<nat, ()>)
    requires InIdOrder(rows) && Progress(crypto, Apply, rows, start, table.rows, before)
    requires end == start + |page| && end <= |Plain(rows)| && page == Plain(rows)[start..end]
    modifies table
    ensures r.Ok? ==> Progress(crypto, Apply, rows, end, table.rows, r.value)
    ensures r.Err? ==> SomeThrows(crypto, Plain(rows))
  {
    var encrypted := before;
    ghost var n := start;
    for k := 0 to |page|
      invariant n == start + k && Progress(crypto, Apply, rows, n, table.rows, encrypted)
    {
      SliceAt(Plain(rows), start, end, k);
      var result := ProcessRow(table, crypto, page[k], encrypted, rows, n);
      if result.Err? {
        return result;
      }
      encrypted, n := result.value, n + 1;
    }
    assert n == end;
    r := Ok(encrypted);
  }

  /** The page query, on a table whose first n plaintext rows have had their turn. */
  method ReadPage(table: FiscalTable, crypto: Crypto, mode: Mode, last: Option<nat>, ghost rows: seq<Row>, n: nat,
                  ghost encrypted: nat)
    returns (page: seq<Row>, end: nat)
    requires InIdOrder(rows) && Progress(crypto, mode, rows, n, table.rows, encrypted)
    requires last == if n == 0 then None else Some(Plain(rows)[n - 1].id)
    ensures end == n + |page| && end <= |Plain(rows)| && page == Plain(rows)[n..end]
    ensures if page == [] then n == |Plain(rows)| else page[|page| - 1] == Plain(rows)[end - 1]
  {
    PageIsNext(crypto, mode, rows, n, table.rows, encrypted, last);
    page := table.FetchPage(last);
    end := n + |page|;
    CutPage(Plain(rows), n, PlainAbove(table.rows, last), page, end);
  }

  lemma CutPage(plain: seq<Row>, n: nat, above: seq<Row>, page: seq<Row>, end: nat)
    requires n <= |plain| && above == plain[n..] && end == n + |page|
    requires page == if |above| <= BATCH_SIZE then above else above[..BATCH_SIZE]
    ensures end <= |plain| && page == plain[n..end]
    ensures if page == [] then n == |plain| else page[|page| - 1] == plain[end - 1]
    ensures |page| == if |plain| - n <= 100 then |plain| - n else 100
  {
  }

  /**
   * The body of the loop over tables. `visited` lists the plaintext rows in the
   * order in which the pages delivered them.
   */
  method BackfillTable(table: FiscalTable, crypto: Crypto, mode: Mode)
    returns (r: Result<Counts, ()>, ghost visited: seq<Row>)
    requires InIdOrder(table.rows)
    modifies table
    ensures TableResult(crypto, mode, old(table.rows), table.rows, r)
    ensures r.Ok? ==> visited == Plain(old(table.rows)) && InIdOrder(visited)
  {
    ghost var rows := table.rows;
    var lastId: Option<nat> := None;
    var seen, encrypted: nat := 0, 0;
    visited := [];
    PlainOrder(rows);
    NothingDone(crypto, mode, rows);
    while true
      invariant Progress(crypto, mode, rows, seen, table.rows, encrypted)
      invariant lastId == if seen == 0 then None else Some(Plain(rows)[seen - 1].id)
      invariant visited == Plain(rows)[..seen]
      decreases |Plain(rows)| - seen
    {
      var page, end := ReadPage(table, crypto, mode, lastId, rows, seen, encrypted);
      if page == [] {
        break;
      }
      lastId := Some(page[|page| - 1].id);
      JoinSlices(Plain(rows), seen, end);
      visited := visited + page;
      var result := ProcessPage(table, crypto, mode, page, encrypted, rows, seen, end);
      if result.Err? {
        return Err(()), visited;
      }
      encrypted := result.value;
      seen := end;
    }
    AllDone(crypto, mode, rows, table.rows, encrypted, seen);
    WholeSlice(Plain(rows), seen);
    r := Ok(Counts(seen, seen, encrypted, table.CountPlaintext()));
  }

  // ---- Both tables in one transaction -----------------------------------------------------

  datatype Report = Report(mode: Mode, contracts: Counts, expedienteRecords: Counts, totals: Counts)

  function Plus(a: Counts, b: Counts): Counts {
    Counts(a.seen + b.seen, a.wouldEncrypt + b.wouldEncrypt, a.encrypted + b.encrypted,
           a.plaintextRemaining + b.plaintextRemaining)
  }

  /** backfillFiscalDocuments inside runInTenantSchema: a thrown error rolls both tables back. */
  method BackfillFiscalDocuments(contracts: FiscalTable, expedientes: FiscalTable, crypto: Crypto, mode: Mode)
    returns (r: Result<Report, ()>)
    requires contracts != expedientes && InIdOrder(contracts.rows) && InIdOrder(expedientes.rows)
    modifies contracts, expedientes
    ensures r.Err? <==>
              mode.Apply? && (SomeThrows(crypto, Plain(old(contracts.rows)))
                              || SomeThrows(crypto, Plain(old(expedientes.rows))))
    ensures r.Err? ==> contracts.rows == old(contracts.rows) && expedientes.rows == old(expedientes.rows)
    ensures r.Ok? ==>
              && TableResult(crypto, mode, old(contracts.rows), contracts.rows, Ok(r.value.contracts))
              && TableResult(crypto, mode, old(expedientes.rows), expedientes.rows, Ok(r.value.expedienteRecords))
              && var first, second, totals := r.value.contracts, r.value.expedienteRecords, r.value.totals;
                 && totals.seen == first.seen + second.seen
                 && totals.wouldEncrypt == first.wouldEncrypt + second.wouldEncrypt
                 && totals.encrypted == first.encrypted + second.encrypted
                 && totals.plaintextRemaining == first.plaintextRemaining + second.plaintextRemaining
  {
    var rows1, rows2 := contracts.rows, expedientes.rows;
    var first, _ := BackfillTable(contracts, crypto, mode);
    if first.Err? {
      contracts.rows := rows1;
      return Err(());
    }
    var second, _ := BackfillTable(expedientes, crypto, mode);
    if second.Err? {
      contracts.rows, expedientes.rows := rows1, rows2;
      return Err(());
    }
    r := Ok(Report(mode, first.value, second.value, Plus(first.value, second.value)));
  }

  // ---- What the counts mean ------------------------------------------------------------------

  lemma {:induction false} AcceptedSplit(crypto: Crypto, a: seq<Row>, b: seq<Row>)
    ensures Accepted(crypto, a + b) == Accepted(crypto, a) + Accepted(crypto, b)
    decreases |b|
  {
    if b == [] {
      assert a + b == a;
    } else {
      var n := |b| - 1;
      assert (a + b)[..|a + b| - 1] == a + b[..n];
      AcceptedSplit(crypto, a, b[..n]);
    }
  }

  /** Seen rows are encrypted or still plaintext, and the latter are exactly those that crypto declined. */
  lemma {:induction false} SeenIsEncryptedPlusRemaining(crypto: Crypto, rows: seq<Row>)
    ensures |Plain(rows)| == Accepted(crypto, Plain(rows)) + |Plain(RewriteAll(crypto, rows))|
    ensures forall r :: r in Plain(RewriteAll(crypto, rows)) <==> r in Plain(rows) && !Accepts(crypto, r)
  {
    if rows != [] {
      var rest := rows[1..];
      SeenIsEncryptedPlusRemaining(crypto, rest);
      assert RewriteAll(crypto, rows)[1..] == RewriteAll(crypto, rest);
      AcceptedSplit(crypto, if rows[0].fiscalDocument.Some? then [rows[0]] else [], Plain(rest));
      assert Accepted(crypto, [rows[0]]) == if Accepts(crypto, rows[0]) then 1 else 0 by {
        assert [rows[0]][..0] == [];
      }
    }
  }

  /** A second apply finds only declined rows: it encrypts none and leaves the table as it is. */
  lemma SecondRunFindsNothing(crypto: Crypto, later: Crypto, rows: seq<Row>)
    requires forall id, v :: later(id, v).Store? <==> crypto(id, v).Store?
    ensures RewriteAll(later, RewriteAll(crypto, rows)) == RewriteAll(crypto, rows)
    ensures Accepted(later, Plain(RewriteAll(crypto, rows))) == 0
  {
    SeenIsEncryptedPlusRemaining(crypto, rows);
    NoneAccepted(later, Plain(RewriteAll(crypto, rows)));
  }

  lemma {:induction false} NoneAccepted(crypto: Crypto, rows: seq<Row>)
    requires forall r :: r in rows ==> !Accepts(crypto, r)
    ensures Accepted(crypto, rows) == 0
  {
    if rows != [] {
      NoneAccepted(crypto, rows[..|rows| - 1]);
    }
  }
}
