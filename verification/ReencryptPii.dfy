/**
 * Re-encryption of PII columns to the active key: the decision on one cell, its
 * totals over a column, and what both mean
 * (apps/api/src/cli/reencrypt-aes.pii.ts).
 */
module ReencryptPii {
  import opened Options
  import opened Text
  import opened FieldCipher

  datatype Mode = DryRun | Apply | VerifyPiiOnly

  datatype Keys = Keys(active: Key, previous: Option<Key>, mfa: seq<Key>)

  /** One row of a target column. */
  datatype Cell = Cell(id: string, value: Option<string>)

  /** Crypto, the IV drawn for each row, and the SQLSTATE with which the database refuses a row's write. */
  datatype Env = Env(cipher: Cipher, keys: Keys, nonce: string -> Nonce, rejects: string -> Option<string>)

  datatype Outcome =
    | NotCandidate
    | NonCiphertext
    | AlreadyPii
    | PiiPrevious
    | MfaOnly
    | DecryptError
    | Reencrypted(ciphertext: string)
    | WriteBlocked(sqlState: string)

  datatype Counts = Counts(
    candidates: nat,
    reencrypted: nat,
    skippedAlreadyPii: nat,
    skippedMissingTable: nat,
    nonCiphertext: nat,
    decryptErrors: nat,
    mfaOnlyRemaining: nat,
    piiPreviousRemaining: nat,
    writeBlocked: nat)

  const ZERO := Counts(0, 0, 0, 0, 0, 0, 0, 0, 0)

  /** What processTarget has counted so far for one target. */
  datatype Tally = Tally(counts: Counts, bySqlState: map<string, nat>)

  /** The rows that the batch query selects: not NULL and not only spaces. */
  predicate Selected(c: Cell) {
    c.value.Some? && exists ch :: ch in c.value.value && ch != ' '
  }

  function SelectedCells(cells: seq<Cell>): seq<Cell> {
    if cells == [] then []
    else (if Selected(cells[0]) then [cells[0]] else []) + SelectedCells(cells[1..])
  }

  function PreviousKeys(keys: Keys): seq<Key> {
    if keys.previous.Some? then [keys.previous.value] else []
  }

  /** The plaintext of a reader that tries active, previous and MFA keys in this order. */
  function Readable(cipher: Cipher, keys: Keys, value: string): Option<string> {
    DecryptFirst(cipher, [keys.active] + PreviousKeys(keys) + keys.mfa, value)
  }

  function Classify(env: Env, mode: Mode, c: Cell): Outcome {
    if c.value.None? || IsBlank(c.value.value) then NotCandidate
    else
      var v := c.value.value;
      if !LooksLikeEncrypted(v) then NonCiphertext
      else if env.cipher.dec(env.keys.active, v).Some? then AlreadyPii
      else if mode.VerifyPiiOnly? then
        if DecryptFirst(env.cipher, PreviousKeys(env.keys), v).Some? then PiiPrevious
        else if DecryptFirst(env.cipher, env.keys.mfa, v).Some? then MfaOnly
        else DecryptError
      else
        var earlier := DecryptFirst(env.cipher, PreviousKeys(env.keys), v);
        var p := if earlier.Some? then earlier else DecryptFirst(env.cipher, env.keys.mfa, v);
        if p.None? then DecryptError
        else if env.rejects(c.id).Some? then WriteBlocked(env.rejects(c.id).value)
        else Reencrypted(env.cipher.enc(env.keys.active, env.nonce(c.id), p.value))
  }

  function Bump(m: map<string, nat>, k: string): map<string, nat> {
    m[k := (if k in m then m[k] else 0) + 1]
  }

  function Count(t: Tally, o: Outcome): Tally {
    var k := t.counts;
    if o.NotCandidate? then t
    else
      var k := k.(candidates := k.candidates + 1);
      match o
      case NonCiphertext => t.(counts := k.(nonCiphertext := k.nonCiphertext + 1))
      case AlreadyPii => t.(counts := k.(skippedAlreadyPii := k.skippedAlreadyPii + 1))
      case PiiPrevious => t.(counts := k.(piiPreviousRemaining := k.piiPreviousRemaining + 1))
      case MfaOnly => t.(counts := k.(mfaOnlyRemaining := k.mfaOnlyRemaining + 1))
      case DecryptError => t.(counts := k.(decryptErrors := k.decryptErrors + 1))
      case Reencrypted(_) => t.(counts := k.(reencrypted := k.reencrypted + 1))
      case WriteBlocked(s) =>
        t.(counts := k.(writeBlocked := k.writeBlocked + 1), bySqlState := Bump(t.bySqlState, s))
  }

  /** The totals of a column as one pass over its selected rows. */
  function TallyOf(env: Env, mode: Mode, cells: seq<Cell>): Tally {
    if cells == [] then Tally(ZERO, map[])
    else Count(TallyOf(env, mode, cells[..|cells| - 1]), Classify(env, mode, cells[|cells| - 1]))
  }

  /** What apply leaves in a cell. */
  function Rewrite(env: Env, c: Cell): Cell {
    match Classify(env, Apply, c)
    case Reencrypted(ciphertext) => c.(value := Some(ciphertext))
    case _ => c
  }

  function RewriteAll(env: Env, cells: seq<Cell>): (r: seq<Cell>)
    ensures |r| == |cells|
  {
    seq(|cells|, i requires 0 <= i < |cells| => Rewrite(env, cells[i]))
  }

  /** In apply the database throws on the first refused write. */
  predicate Blocked(env: Env, c: Cell) {
    Classify(env, Apply, c).WriteBlocked?
  }

  ghost predicate UniqueIds(cells: seq<Cell>) {
    forall i, j :: 0 <= i < j < |cells| ==> cells[i].id != cells[j].id
  }

  // ---- One cell ----------------------------------------------------------------

  lemma {:induction false} DecryptFirstConcat(c: Cipher, a: seq<Key>, b: seq<Key>, v: string)
    ensures DecryptFirst(c, a + b, v)
            == (if DecryptFirst(c, a, v).Some? then DecryptFirst(c, a, v) else DecryptFirst(c, b, v))
  {
    if a == [] {
      assert a + b == b;
    } else {
      assert (a + b)[1..] == a[1..] + b;
      DecryptFirstConcat(c, a[1..], b, v);
    }
  }

  lemma ReadableUnfolds(c: Cipher, keys: Keys, v: string)
    ensures Readable(c, keys, v)
            == (if c.dec(keys.active, v).Some? then c.dec(keys.active, v)
                else if DecryptFirst(c, PreviousKeys(keys), v).Some? then DecryptFirst(c, PreviousKeys(keys), v)
                else DecryptFirst(c, keys.mfa, v))
  {
    DecryptFirstConcat(c, [keys.active] + PreviousKeys(keys), keys.mfa, v);
    DecryptFirstConcat(c, [keys.active], PreviousKeys(keys), v);
    assert [keys.active][1..] == [];
  }

  /** A rewritten cell keeps its row, stays selected and reads back as before. */
  lemma RewriteKeepsReading(env: Env, c: Cell)
    requires Lawful(env.cipher)
    ensures Rewrite(env, c).id == c.id
    ensures Selected(Rewrite(env, c)) <==> Selected(c)
    ensures c.value.Some? <==> Rewrite(env, c).value.Some?
    ensures c.value.Some? ==> Readable(env.cipher, env.keys, Rewrite(env, c).value.value)
                              == Readable(env.cipher, env.keys, c.value.value)
  {
    match Classify(env, Apply, c)
    case Reencrypted(ct) =>
      ReadableUnfolds(env.cipher, env.keys, c.value.value);
      ReadableUnfolds(env.cipher, env.keys, ct);
      CiphertextNotBlank(ct);
      CiphertextNotBlank(c.value.value);
    case _ =>
  }

  /** After apply a cell is in the state that verification accepts, or was already out of reach. */
  lemma RewriteSettles(env: Env, later: Env, c: Cell)
    requires Lawful(env.cipher) && later.cipher == env.cipher && later.keys == env.keys
    requires !Blocked(env, c)
    ensures Rewrite(later, Rewrite(env, c)) == Rewrite(env, c)
    ensures Classify(env, Apply, c).NotCandidate? <==> Classify(later, VerifyPiiOnly, Rewrite(env, c)).NotCandidate?
    ensures Classify(env, Apply, c).Reencrypted? || Classify(env, Apply, c).AlreadyPii?
            <==> Classify(later, VerifyPiiOnly, Rewrite(env, c)).AlreadyPii?
    ensures !Classify(later, Apply, Rewrite(env, c)).Reencrypted?
    ensures !Blocked(later, Rewrite(env, c))
  {
    match Classify(env, Apply, c)
    case Reencrypted(ct) => CiphertextNotBlank(ct);
    case _ =>
  }

  // ---- Counters ------------------------------------------------------------------

  ghost function Sum(m: map<string, nat>): nat
    decreases |m|
  {
    if m == map[] then 0 else var k :| k in m; m[k] + Sum(m - {k})
  }

  lemma {:induction false} SumWithout(m: map<string, nat>, k: string)
    requires k in m
    ensures Sum(m) == m[k] + Sum(m - {k})
    decreases |m|
  {
    var j :| j in m && Sum(m) == m[j] + Sum(m - {j});
    if j != k {
      SumWithout(m - {j}, k);
      SumWithout(m - {k}, j);
      assert m - {j} - {k} == m - {k} - {j};
    }
  }

  lemma SumBump(m: map<string, nat>, k: string)
    ensures Sum(Bump(m, k)) == Sum(m) + 1
  {
    var m' := Bump(m, k);
    SumWithout(m', k);
    if k in m {
      SumWithout(m, k);
    }
    assert m' - {k} == m - {k};
    if k !in m { assert m - {k} == m; }
  }

  /** Every candidate sits in exactly one class, and the refused writes by SQLSTATE add up. */
  ghost predicate Balanced(t: Tally) {
    var k := t.counts;
    && k.candidates == k.skippedAlreadyPii + k.reencrypted + k.nonCiphertext + k.decryptErrors
                       + k.writeBlocked + k.mfaOnlyRemaining + k.piiPreviousRemaining
    && Sum(t.bySqlState) == k.writeBlocked
    && k.skippedMissingTable == 0
  }

  /** The classes a mode never uses. */
  ghost predicate ModeClasses(k: Counts, mode: Mode) {
    if mode.VerifyPiiOnly? then k.reencrypted == k.writeBlocked == 0
    else k.mfaOnlyRemaining == k.piiPreviousRemaining == 0
  }

  predicate OutcomeFits(o: Outcome, mode: Mode) {
    if mode.VerifyPiiOnly? then !o.Reencrypted? && !o.WriteBlocked? else !o.PiiPrevious? && !o.MfaOnly?
  }

  lemma CountBalanced(t: Tally, o: Outcome, mode: Mode)
    requires Balanced(t) && ModeClasses(t.counts, mode) && OutcomeFits(o, mode)
    ensures Balanced(Count(t, o)) && ModeClasses(Count(t, o).counts, mode)
    ensures Count(t, o).counts.candidates <= t.counts.candidates + 1
  {
    if o.WriteBlocked? {
      SumBump(t.bySqlState, o.sqlState);
    }
  }

  lemma OutcomeOfMode(env: Env, mode: Mode, c: Cell)
    ensures OutcomeFits(Classify(env, mode, c), mode)
  {
  }

  lemma {:induction false} CandidatesSplit(env: Env, mode: Mode, cells: seq<Cell>)
    ensures Balanced(TallyOf(env, mode, cells))
    ensures ModeClasses(TallyOf(env, mode, cells).counts, mode)
    ensures TallyOf(env, mode, cells).counts.candidates <= |cells|
  {
    if cells != [] {
      var n := |cells| - 1;
      CandidatesSplit(env, mode, cells[..n]);
      OutcomeOfMode(env, mode, cells[n]);
      CountBalanced(TallyOf(env, mode, cells[..n]), Classify(env, mode, cells[n]), mode);
    }
  }

  /** A rehearsal without refused writes counts what apply then counts, on the same rows. */
  lemma {:induction false} RehearsalPredicts(env: Env, applied: Env, cells: seq<Cell>)
    requires applied.cipher == env.cipher && applied.keys == env.keys && applied.rejects == env.rejects
    requires TallyOf(env, DryRun, cells).counts.writeBlocked == 0
    ensures TallyOf(applied, Apply, cells) == TallyOf(env, DryRun, cells)
    ensures forall c :: c in cells ==> !Blocked(applied, c)
  {
    if cells != [] {
      var n := |cells| - 1;
      assert Classify(env, DryRun, cells[n]).WriteBlocked? <==> Classify(applied, Apply, cells[n]).WriteBlocked?;
      RehearsalPredicts(env, applied, cells[..n]);
    }
  }

  // ---- Columns -----------------------------------------------------------------------

  lemma SelectedCons(c: Cell, rest: seq<Cell>)
    ensures SelectedCells([c] + rest) == (if Selected(c) then [c] else []) + SelectedCells(rest)
  {
    assert ([c] + rest)[1..] == rest;
  }

  lemma RewriteAllCons(env: Env, c: Cell, rest: seq<Cell>)
    ensures RewriteAll(env, [c] + rest) == [Rewrite(env, c)] + RewriteAll(env, rest)
  {
  }

  lemma {:induction false} SelectedRewriteAll(env: Env, cells: seq<Cell>)
    requires Lawful(env.cipher)
    ensures SelectedCells(RewriteAll(env, cells)) == RewriteAll(env, SelectedCells(cells))
  {
    if cells != [] {
      var c, rest := cells[0], cells[1..];
      RewriteKeepsReading(env, c);
      SelectedRewriteAll(env, rest);
      assert cells == [c] + rest;
      RewriteAllCons(env, c, rest);
      RewriteAllCons(env, c, SelectedCells(rest));
      SelectedCons(Rewrite(env, c), RewriteAll(env, rest));
    }
  }

  /** One more row that apply settles is one more row that verification finds under the active key. */
  lemma SettledRow(env: Env, later: Env, c: Cell, applied: Tally, verified: Tally, again: Tally)
    requires Lawful(env.cipher) && later.cipher == env.cipher && later.keys == env.keys && !Blocked(env, c)
    requires var k := Count(applied, Classify(env, Apply, c)).counts; k.nonCiphertext == 0 && k.decryptErrors == 0
    ensures applied.counts.nonCiphertext == 0 && applied.counts.decryptErrors == 0
    ensures var o := Classify(env, Apply, c);
            var v := Count(verified, Classify(later, VerifyPiiOnly, Rewrite(env, c))).counts;
            && v.nonCiphertext == verified.counts.nonCiphertext && v.decryptErrors == verified.counts.decryptErrors
            && v.mfaOnlyRemaining == verified.counts.mfaOnlyRemaining
            && v.piiPreviousRemaining == verified.counts.piiPreviousRemaining
            && v.candidates - verified.counts.candidates == v.skippedAlreadyPii - verified.counts.skippedAlreadyPii
               == Count(applied, o).counts.candidates - applied.counts.candidates
    ensures Count(again, Classify(later, Apply, Rewrite(env, c))).counts.reencrypted == again.counts.reencrypted
  {
    RewriteSettles(env, later, c);
  }

  /** No row is left behind: verification of a settled column finds nothing pending. */
  lemma {:induction false} SettledColumn(env: Env, later: Env, cells: seq<Cell>)
    requires Lawful(env.cipher) && later.cipher == env.cipher && later.keys == env.keys
    requires forall c :: c in cells ==> !Blocked(env, c)
    requires var k := TallyOf(env, Apply, cells).counts; k.nonCiphertext == 0 && k.decryptErrors == 0
    ensures var k := TallyOf(later, VerifyPiiOnly, RewriteAll(env, cells)).counts;
            && k.candidates == k.skippedAlreadyPii == TallyOf(env, Apply, cells).counts.candidates
            && k.nonCiphertext == k.decryptErrors == k.mfaOnlyRemaining == k.piiPreviousRemaining == 0
    ensures TallyOf(later, Apply, RewriteAll(env, cells)).counts.reencrypted == 0
  {
    if cells != [] {
      var n, after := |cells| - 1, RewriteAll(env, cells);
      var front, last := cells[..n], cells[n];
      assert after[..n] == RewriteAll(env, front) && after[n] == Rewrite(env, last);
      SettledRow(env, later, last, TallyOf(env, Apply, front), TallyOf(later, VerifyPiiOnly, after[..n]),
                 TallyOf(later, Apply, after[..n]));
      SettledColumn(env, later, front);
    }
  }

  /** Rows whose writes all went through are left byte for byte by a second apply with other IVs. */
  lemma RewriteAllSettled(env: Env, later: Env, cells: seq<Cell>)
    requires Lawful(env.cipher) && later.cipher == env.cipher && later.keys == env.keys
    requires forall c :: c in cells ==> !Blocked(env, c)
    ensures RewriteAll(later, RewriteAll(env, cells)) == RewriteAll(env, cells)
  {
    forall i | 0 <= i < |cells|
      ensures RewriteAll(later, RewriteAll(env, cells))[i] == RewriteAll(env, cells)[i]
    {
      RewriteSettles(env, later, cells[i]);
    }
  }

  /** A second apply, with other IVs, leaves every cell byte for byte. */
  lemma RewriteAllIdempotent(env: Env, later: Env, cells: seq<Cell>)
    requires Lawful(env.cipher) && later.cipher == env.cipher && later.keys == env.keys
    requires later.rejects == env.rejects
    ensures RewriteAll(later, RewriteAll(env, cells)) == RewriteAll(env, cells)
  {
    forall i | 0 <= i < |cells|
      ensures RewriteAll(later, RewriteAll(env, cells))[i] == RewriteAll(env, cells)[i]
    {
      if !Blocked(env, cells[i]) {
        RewriteSettles(env, later, cells[i]);
      }
    }
  }
}
