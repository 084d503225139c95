/**
 * What the classes, counters and reports of the re-encryption say about the
 * stored values and the keys that open them
 * (apps/api/src/cli/reencrypt-aes.pii.ts:234-403).
 */
module ReencryptMeaning {
  import opened Options
  import opened Text
  import opened FieldCipher
  import opened ReencryptPii
  import opened ReencryptRun
  import opened ReencryptGuarantees

  // ---- One value ------------------------------------------------------------------------------

  predicate OpensActive(env: Env, value: string) {
    OpensUnder(env.cipher, env.keys.active, value)
  }

  predicate OpensPrevious(env: Env, value: string) {
    env.keys.previous.Some? && OpensUnder(env.cipher, env.keys.previous.value, value)
  }

  /** Some key of the run opens the value. */
  predicate OpensAny(env: Env, value: string) {
    OpensActive(env, value) || OpensPrevious(env, value) || Opens(env.cipher, env.keys.mfa, value)
  }

  lemma PreviousOpens(env: Env, value: string)
    ensures DecryptFirst(env.cipher, PreviousKeys(env.keys), value).Some? <==> OpensPrevious(env, value)
  {
    FirstOpens(env.cipher, PreviousKeys(env.keys), value);
    if env.keys.previous.Some? {
      assert env.keys.previous.value in PreviousKeys(env.keys);
    }
  }

  /** A reader with the keys of the run gets a plaintext exactly from a value that one of them opens. */
  lemma ReadableIffOpens(env: Env, value: string)
    ensures Readable(env.cipher, env.keys, value).Some? <==> OpensAny(env, value)
  {
    ReadableUnfolds(env.cipher, env.keys, value);
    PreviousOpens(env, value);
    FirstOpens(env.cipher, env.keys.mfa, value);
  }

  /** A cell that the job has to deal with: neither NULL nor blank. */
  predicate Filled(c: Cell) {
    c.value.Some? && !IsBlank(c.value.value)
  }

  predicate Plain(c: Cell) {
    Filled(c) && !LooksLikeEncrypted(c.value.value)
  }

  predicate Sealed(c: Cell) {
    Filled(c) && LooksLikeEncrypted(c.value.value)
  }

  predicate Unreadable(env: Env, c: Cell) {
    Sealed(c) && !OpensAny(env, c.value.value)
  }

  predicate UnderActive(env: Env, c: Cell) {
    Sealed(c) && OpensActive(env, c.value.value)
  }

  predicate UnderOther(env: Env, c: Cell) {
    Sealed(c) && !OpensActive(env, c.value.value) && OpensAny(env, c.value.value)
  }

  /** In every mode: what is no ciphertext, what no key opens, and what the active key opens. */
  lemma ClassMeaning(env: Env, mode: Mode, c: Cell)
    ensures var o := Classify(env, mode, c);
            && (o.NotCandidate? <==> !Filled(c))
            && (o.NonCiphertext? <==> Plain(c))
            && (o.DecryptError? <==> Unreadable(env, c))
            && (o.AlreadyPii? <==> UnderActive(env, c))
  {
    if Sealed(c) {
      PreviousOpens(env, c.value.value);
      FirstOpens(env.cipher, env.keys.mfa, c.value.value);
    }
  }

  /** Verification tells the previous PII key from the MFA keys. */
  lemma VerifyClassMeaning(env: Env, c: Cell)
    ensures var o := Classify(env, VerifyPiiOnly, c);
            && (o.PiiPrevious? <==> UnderOther(env, c) && OpensPrevious(env, c.value.value))
            && (o.MfaOnly? <==> UnderOther(env, c) && !OpensPrevious(env, c.value.value))
  {
    if Sealed(c) {
      PreviousOpens(env, c.value.value);
      FirstOpens(env.cipher, env.keys.mfa, c.value.value);
    }
  }

  /** Apply and its rehearsal re-encrypt exactly what only another key opens, unless the write is refused. */
  lemma ApplyClassMeaning(env: Env, mode: Mode, c: Cell)
    requires !mode.VerifyPiiOnly?
    ensures var o := Classify(env, mode, c);
            && (o.Reencrypted? <==> UnderOther(env, c) && env.rejects(c.id).None?)
            && (o.WriteBlocked? <==> UnderOther(env, c) && env.rejects(c.id).Some?)
            && (o.WriteBlocked? ==> env.rejects(c.id) == Some(o.sqlState))
  {
    if Sealed(c) {
      PreviousOpens(env, c.value.value);
      FirstOpens(env.cipher, env.keys.mfa, c.value.value);
    }
  }

  /** What any key of the run opens, the active key opens after apply, to the same plaintext. */
  lemma AppliedOpens(env: Env, c: Cell)
    requires Lawful(env.cipher) && Sealed(c) && OpensAny(env, c.value.value) && env.rejects(c.id).None?
    ensures var after := Rewrite(env, c);
            && after.value.Some?
            && env.cipher.dec(env.keys.active, after.value.value) == Readable(env.cipher, env.keys, c.value.value)
            && Readable(env.cipher, env.keys, c.value.value).Some?
  {
    ReadableIffOpens(env, c.value.value);
    ReadableUnfolds(env.cipher, env.keys, c.value.value);
    ApplyClassMeaning(env, Apply, c);
    ClassMeaning(env, Apply, c);
  }

  // ---- One column -----------------------------------------------------------------------------

  ghost function CountOf(p: Cell -> bool, cells: seq<Cell>): nat {
    if cells == [] then 0 else CountOf(p, cells[..|cells| - 1]) + (if p(cells[|cells| - 1]) then 1 else 0)
  }

  function IsFilled(): Cell -> bool {
    c => Filled(c)
  }

  function IsPlain(): Cell -> bool {
    c => Plain(c)
  }

  function IsUnreadable(env: Env): Cell -> bool {
    c => Unreadable(env, c)
  }

  function IsUnderActive(env: Env): Cell -> bool {
    c => UnderActive(env, c)
  }

  function IsUnderOther(env: Env): Cell -> bool {
    c => UnderOther(env, c)
  }

  function IsUnderPrevious(env: Env): Cell -> bool {
    c => UnderOther(env, c) && OpensPrevious(env, c.value.value)
  }

  function IsRefused(env: Env): Cell -> bool {
    c => UnderOther(env, c) && env.rejects(c.id).Some?
  }

  /** The counters of a column, from its values alone. */
  ghost predicate CountsAre(env: Env, mode: Mode, cells: seq<Cell>, k: Counts) {
    && k.candidates == CountOf(IsFilled(), cells) && k.nonCiphertext == CountOf(IsPlain(), cells)
    && k.decryptErrors == CountOf(IsUnreadable(env), cells)
    && k.skippedAlreadyPii == CountOf(IsUnderActive(env), cells)
    && (if mode.VerifyPiiOnly?
        then && k.piiPreviousRemaining == CountOf(IsUnderPrevious(env), cells)
             && k.piiPreviousRemaining + k.mfaOnlyRemaining == CountOf(IsUnderOther(env), cells)
        else && k.writeBlocked == CountOf(IsRefused(env), cells)
             && k.writeBlocked + k.reencrypted == CountOf(IsUnderOther(env), cells))
  }

  lemma CountNext(p: Cell -> bool, cells: seq<Cell>)
    requires cells != []
    ensures CountOf(p, cells)
            == CountOf(p, cells[..|cells| - 1]) + (if p(cells[|cells| - 1]) then 1 else 0)
  {
  }

  /** One more cell moves each counter by what the cell is. */
  ghost predicate Moved(env: Env, mode: Mode, c: Cell, was: Counts, now: Counts) {
    && now.candidates == was.candidates + (if Filled(c) then 1 else 0)
    && now.nonCiphertext == was.nonCiphertext + (if Plain(c) then 1 else 0)
    && now.decryptErrors == was.decryptErrors + (if Unreadable(env, c) then 1 else 0)
    && now.skippedAlreadyPii == was.skippedAlreadyPii + (if UnderActive(env, c) then 1 else 0)
    && (if mode.VerifyPiiOnly?
        then && now.piiPreviousRemaining
                == was.piiPreviousRemaining
                   + (if UnderOther(env, c) && OpensPrevious(env, c.value.value) then 1 else 0)
             && now.piiPreviousRemaining + now.mfaOnlyRemaining
                == was.piiPreviousRemaining + was.mfaOnlyRemaining + (if UnderOther(env, c) then 1 else 0)
        else && now.writeBlocked
                == was.writeBlocked + (if UnderOther(env, c) && env.rejects(c.id).Some? then 1 else 0)
             && now.writeBlocked + now.reencrypted
                == was.writeBlocked + was.reencrypted + (if UnderOther(env, c) then 1 else 0))
  }

  lemma CountMoves(env: Env, mode: Mode, c: Cell, t: Tally)
    ensures Moved(env, mode, c, t.counts, Count(t, Classify(env, mode, c)).counts)
  {
    ClassMeaning(env, mode, c);
    if mode.VerifyPiiOnly? {
      VerifyClassMeaning(env, c);
      CountVerified(t, Classify(env, mode, c));
    } else {
      ApplyClassMeaning(env, mode, c);
      OutcomeOfMode(env, mode, c);
      CountApplied(t, Classify(env, mode, c));
    }
  }

  lemma CountVerified(t: Tally, o: Outcome)
    ensures var k, k' := t.counts, Count(t, o).counts;
            && k'.candidates == k.candidates + (if o.NotCandidate? then 0 else 1)
            && k'.nonCiphertext == k.nonCiphertext + (if o.NonCiphertext? then 1 else 0)
            && k'.decryptErrors == k.decryptErrors + (if o.DecryptError? then 1 else 0)
            && k'.skippedAlreadyPii == k.skippedAlreadyPii + (if o.AlreadyPii? then 1 else 0)
            && k'.piiPreviousRemaining == k.piiPreviousRemaining + (if o.PiiPrevious? then 1 else 0)
            && k'.mfaOnlyRemaining == k.mfaOnlyRemaining + (if o.MfaOnly? then 1 else 0)
  {
  }

  lemma CountApplied(t: Tally, o: Outcome)
    ensures var k, k' := t.counts, Count(t, o).counts;
            && k'.candidates == k.candidates + (if o.NotCandidate? then 0 else 1)
            && k'.nonCiphertext == k.nonCiphertext + (if o.NonCiphertext? then 1 else 0)
            && k'.decryptErrors == k.decryptErrors + (if o.DecryptError? then 1 else 0)
            && k'.skippedAlreadyPii == k.skippedAlreadyPii + (if o.AlreadyPii? then 1 else 0)
            && k'.writeBlocked == k.writeBlocked + (if o.WriteBlocked? then 1 else 0)
            && k'.reencrypted == k.reencrypted + (if o.Reencrypted? then 1 else 0)
  {
  }

  lemma CountsNext(env: Env, mode: Mode, cells: seq<Cell>, was: Counts, now: Counts)
    requires cells != [] && CountsAre(env, mode, cells[..|cells| - 1], was)
    requires Moved(env, mode, cells[|cells| - 1], was, now)
    ensures CountsAre(env, mode, cells, now)
  {
    CountNext(IsFilled(), cells);
    CountNext(IsPlain(), cells);
    CountNext(IsUnreadable(env), cells);
    CountNext(IsUnderActive(env), cells);
    CountNext(IsUnderOther(env), cells);
    CountNext(IsUnderPrevious(env), cells);
    CountNext(IsRefused(env), cells);
  }

  lemma {:induction false} TallyMeaning(env: Env, mode: Mode, cells: seq<Cell>)
    ensures CountsAre(env, mode, cells, TallyOf(env, mode, cells).counts)
  {
    if cells != [] {
      var front, last := cells[..|cells| - 1], cells[|cells| - 1];
      TallyMeaning(env, mode, front);
      CountMoves(env, mode, last, TallyOf(env, mode, front));
      CountsNext(env, mode, cells, TallyOf(env, mode, front).counts, TallyOf(env, mode, cells).counts);
    }
  }

  lemma CountSnoc(p: Cell -> bool, front: seq<Cell>, last: Cell)
    ensures CountOf(p, front + [last]) == CountOf(p, front) + (if p(last) then 1 else 0)
  {
    assert (front + [last])[..|front|] == front;
  }

  /** Rows that the query leaves out are rows that would not count. */
  lemma {:induction false} CountSelected(p: Cell -> bool, cells: seq<Cell>)
    requires forall c :: p(c) ==> Filled(c)
    ensures CountOf(p, SelectedCells(cells)) == CountOf(p, cells)
  {
    if cells != [] {
      var front, last := cells[..|cells| - 1], cells[|cells| - 1];
      CountSelected(p, front);
      assert cells == front + [last];
      OneMoreSelected(p, front, last);
    }
  }

  lemma OneMoreSelected(p: Cell -> bool, front: seq<Cell>, last: Cell)
    requires p(last) ==> Filled(last)
    requires CountOf(p, SelectedCells(front)) == CountOf(p, front)
    ensures CountOf(p, SelectedCells(front + [last])) == CountOf(p, front + [last])
  {
    var tail := if Selected(last) then [last] else [];
    SelectedSnoc(front, last, tail);
    if !Selected(last) {
      NotSelectedNotFilled(last);
    }
    OneMoreCounted(p, front, last, SelectedCells(front), tail);
  }

  lemma OneMoreCounted(p: Cell -> bool, front: seq<Cell>, last: Cell, part: seq<Cell>, tail: seq<Cell>)
    requires tail == (if Selected(last) then [last] else []) && (p(last) ==> Selected(last))
    requires CountOf(p, part) == CountOf(p, front)
    ensures CountOf(p, part + tail) == CountOf(p, front + [last])
  {
    CountSnoc(p, front, last);
    CountSnoc(p, part, last);
    assert part + [] == part;
  }

  lemma NotSelectedNotFilled(c: Cell)
    requires !Selected(c)
    ensures !Filled(c)
  {
    if c.value.Some? {
      forall ch | ch in c.value.value ensures IsSpace(ch) {
        assert ch == ' ';
      }
    }
  }

  lemma Associate(a: seq<Cell>, b: seq<Cell>, c: seq<Cell>)
    ensures a + (b + c) == a + b + c
  {
  }

  lemma {:induction false} SelectedSnoc(front: seq<Cell>, last: Cell, tail: seq<Cell>)
    requires tail == if Selected(last) then [last] else []
    ensures SelectedCells(front + [last]) == SelectedCells(front) + tail
  {
    if front == [] {
      SelectedCons(last, []);
      assert front + [last] == [last] + [];
    } else {
      var c, rest := front[0], front[1..];
      SelectedSnoc(rest, last, tail);
      ConsSnoc(front, last);
      SelectedCons(c, rest + [last]);
      SelectedCons(c, rest);
      Associate(if Selected(c) then [c] else [], SelectedCells(rest), tail);
    }
  }

  lemma ConsSnoc(front: seq<Cell>, last: Cell)
    requires front != []
    ensures front == [front[0]] + front[1..] && front + [last] == [front[0]] + (front[1..] + [last])
  {
  }

  /** The counters of a target count the cells of its column, whatever the query left out. */
  lemma ColumnCounts(env: Env, mode: Mode, cells: seq<Cell>)
    ensures CountsAre(env, mode, cells, TallyOf(env, mode, SelectedCells(cells)).counts)
  {
    TallyMeaning(env, mode, SelectedCells(cells));
    CountSelected(IsFilled(), cells);
    CountSelected(IsPlain(), cells);
    CountSelected(IsUnreadable(env), cells);
    CountSelected(IsUnderActive(env), cells);
    CountSelected(IsUnderOther(env), cells);
    CountSelected(IsUnderPrevious(env), cells);
    CountSelected(IsRefused(env), cells);
  }

  lemma {:induction false} CountZero(p: Cell -> bool, cells: seq<Cell>)
    ensures CountOf(p, cells) == 0 <==> forall c :: c in cells ==> !p(c)
  {
    if cells != [] {
      var front, last := cells[..|cells| - 1], cells[|cells| - 1];
      CountZero(p, front);
      assert cells == front + [last];
    }
  }

  // ---- Reports ----------------------------------------------------------------------------------

  /** What a mode accepts in a cell without objection. */
  predicate InOrder(env: Env, mode: Mode, c: Cell) {
    Filled(c) ==>
      && LooksLikeEncrypted(c.value.value)
      && if mode.VerifyPiiOnly? then OpensActive(env, c.value.value)
         else OpensAny(env, c.value.value) && (OpensActive(env, c.value.value) || env.rejects(c.id).None?)
  }

  ghost predicate ColumnInOrder(plan: Plan, mode: Mode, tables: Tables, columns: Columns, job: Job) {
    TableOf(tables, job) && forall c :: c in Stored(columns, SlotOf(job)) ==> InOrder(plan.At(SlotOf(job)), mode, c)
  }

  lemma ColumnBlocksIff(env: Env, mode: Mode, cells: seq<Cell>)
    ensures Blocking(mode, TallyOf(env, mode, SelectedCells(cells)).counts)
            <==> exists c :: c in cells && !InOrder(env, mode, c)
  {
    ColumnCounts(env, mode, cells);
    CandidatesSplit(env, mode, SelectedCells(cells));
    CountZero(IsPlain(), cells);
    CountZero(IsUnreadable(env), cells);
    CountZero(IsUnderOther(env), cells);
    CountZero(IsRefused(env), cells);
  }

  lemma JobBlocksIff(plan: Plan, mode: Mode, tables: Tables, columns: Columns, job: Job)
    ensures Blocking(mode, JobTally(plan, mode, tables, columns, job).counts)
            <==> !ColumnInOrder(plan, mode, tables, columns, job)
  {
    if TableOf(tables, job) {
      ColumnBlocksIff(plan.At(SlotOf(job)), mode, Stored(columns, SlotOf(job)));
    }
  }

  /**
   * Verification and rehearsal report no blocking issue exactly when every table
   * is there and every value in it is in order: for verification a ciphertext
   * under the active key, for a rehearsal one that some key of the run opens and
   * whose write, where one is due, is not refused.
   */
  lemma {:induction false} CleanIffInOrder(plan: Plan, mode: Mode, tables: Tables, columns: Columns, jobs: seq<Job>)
    requires !mode.Apply?
    ensures !ReportOf(mode, Metrics(plan, mode, tables, columns, jobs)).hasBlockingIssues
            <==> forall job :: job in jobs ==> ColumnInOrder(plan, mode, tables, columns, job)
  {
    if jobs != [] {
      var front, last := jobs[..|jobs| - 1], jobs[|jobs| - 1];
      Snoc(jobs);
      CleanIffInOrder(plan, mode, tables, columns, front);
      MetricsFront(plan, mode, tables, columns, jobs);
      PlusBlocking(mode, Total(Metrics(plan, mode, tables, columns, front)),
                   JobTally(plan, mode, tables, columns, last).counts);
      JobBlocksIff(plan, mode, tables, columns, last);
      assert last in jobs;
    }
  }

  /** After a completed apply the active key opens whatever a key of the run opened in a column that it reached. */
  lemma EveryReadableOpens(plan: Plan, tables: Tables, columns: Columns, jobs: seq<Job>, slot: Slot, i: nat)
    requires Lawful(plan.cipher) && NothingRefused(plan, tables, columns, jobs) && Reached(tables, jobs, slot)
    requires i < |Stored(columns, slot)| && Sealed(Stored(columns, slot)[i])
    requires OpensAny(plan.At(slot), Stored(columns, slot)[i].value.value)
    ensures var was, after := Stored(columns, slot)[i].value.value, Stored(After(plan, tables, columns, jobs), slot);
            && i < |after| && after[i].value.Some?
            && plan.cipher.dec(plan.keys.active, after[i].value.value) == Readable(plan.cipher, plan.keys, was)
            && Readable(plan.cipher, plan.keys, was).Some?
  {
    var env, c := plan.At(slot), Stored(columns, slot)[i];
    AfterColumn(plan, tables, columns, jobs, slot);
    NoneRefused(plan, tables, columns, jobs, slot);
    assert !Blocked(env, c) by { assert c in Stored(columns, slot); }
    OpensUnrefused(env, c);
  }

  /** The same for a cell whose write is due and not refused, or not due. */
  lemma OpensUnrefused(env: Env, c: Cell)
    requires Lawful(env.cipher) && Sealed(c) && OpensAny(env, c.value.value) && !Blocked(env, c)
    ensures var after := Rewrite(env, c);
            && after.value.Some?
            && env.cipher.dec(env.keys.active, after.value.value) == Readable(env.cipher, env.keys, c.value.value)
            && Readable(env.cipher, env.keys, c.value.value).Some?
  {
    ClassMeaning(env, Apply, c);
    ApplyClassMeaning(env, Apply, c);
    ReadableIffOpens(env, c.value.value);
    ReadableUnfolds(env.cipher, env.keys, c.value.value);
  }

  // ---- Which columns ------------------------------------------------------------------------------

  ghost predicate TargetOf(schemas: seq<string>, targets: seq<Target>, job: Job) {
    && job.schema in schemas
    && exists t :: t in targets && t.entityType == job.entityType && t.table == job.table && t.column == job.column
  }

  lemma JobsOfMembers(schema: string, targets: seq<Target>, job: Job)
    ensures job in JobsOf(schema, targets) <==> job.schema == schema && TargetOf([schema], targets, job)
  {
    var jobs := JobsOf(schema, targets);
    if job in jobs {
      var i :| 0 <= i < |jobs| && jobs[i] == job;
      assert targets[i] in targets;
    }
    if job.schema == schema && TargetOf([schema], targets, job) {
      var t :| t in targets && t.entityType == job.entityType && t.table == job.table && t.column == job.column;
      var i :| 0 <= i < |targets| && targets[i] == t;
      assert jobs[i] == job;
    }
  }

  lemma TargetsSnoc(schemas: seq<string>, targets: seq<Target>, job: Job, front: seq<string>, last: string)
    requires schemas == front + [last]
    ensures TargetOf(schemas, targets, job) <==> TargetOf(front, targets, job) || TargetOf([last], targets, job)
  {
  }

  /** A run handles exactly the targets of its schemas. */
  lemma {:induction false} WorkMembers(schemas: seq<string>, targets: seq<Target>, job: Job)
    ensures job in Work(schemas, targets) <==> TargetOf(schemas, targets, job)
  {
    if schemas != [] {
      var front, last := schemas[..|schemas| - 1], schemas[|schemas| - 1];
      WorkMembers(front, targets, job);
      JobsOfMembers(last, targets, job);
      assert schemas == front + [last];
      TargetsSnoc(schemas, targets, job, front, last);
    }
  }

  lemma Product(a: nat, b: nat)
    ensures (a + 1) * b == a * b + b
  {
  }

  /** Each target once in each schema. */
  lemma {:induction false} WorkLength(schemas: seq<string>, targets: seq<Target>)
    ensures |Work(schemas, targets)| == |schemas| * |targets|
  {
    if schemas != [] {
      WorkLength(schemas[..|schemas| - 1], targets);
      Product(|schemas| - 1, |targets|);
    }
  }

  /** Without a filter all eligible schemas are chosen, with one exactly the schema that it names. */
  lemma ChosenSchemas(filter: Option<string>, eligible: seq<string>)
    ensures var wanted := if filter.Some? then Trim(filter.value) else "";
            match Schemas(filter, eligible)
            case Ok(chosen) =>
              && wanted != "public"
              && (if wanted == "" then chosen == eligible
                  else wanted in eligible && chosen != [] && forall s :: s in chosen ==> s == wanted)
            case Err(e) => if wanted == "public" then e.PublicSchema? else e.SchemaNotFound? && wanted !in eligible
  {
    var wanted := if filter.Some? then Trim(filter.value) else "";
    FilterMembers(eligible, wanted);
  }

  lemma {:induction false} FilterMembers(schemas: seq<string>, wanted: string)
    ensures forall s :: s in Filter(schemas, wanted) ==> s == wanted
    ensures Filter(schemas, wanted) != [] <==> wanted in schemas
  {
    if schemas != [] {
      FilterMembers(schemas[..|schemas| - 1], wanted);
      assert schemas == schemas[..|schemas| - 1] + [schemas[|schemas| - 1]];
    }
  }
}
