/** What an applied run guarantees about verification, a second run, a rehearsal and the readers. */
module ReencryptGuarantees {
  import opened Options
  import opened FieldCipher
  import CipherWitness
  import opened ReencryptPii
  import opened ReencryptRun

  type Tables = set<(string, string)>

  type Columns = map<Slot, seq<Cell>>

  predicate TableOf(tables: Tables, job: Job) {
    (job.schema, job.table) in tables
  }

  /** Some job of the run reaches the column. */
  ghost predicate Reached(tables: Tables, jobs: seq<Job>, slot: Slot) {
    exists job :: job in jobs && SlotOf(job) == slot && TableOf(tables, job)
  }

  ghost predicate SameKeys(plan: Plan, later: Plan) {
    later.cipher == plan.cipher && later.keys == plan.keys
  }

  lemma Snoc(jobs: seq<Job>)
    requires jobs != []
    ensures jobs == jobs[..|jobs| - 1] + [jobs[|jobs| - 1]]
  {
  }

  /** A column that several jobs reach is rewritten once: the later ones find it settled. */
  lemma {:induction false} AfterColumn(plan: Plan, tables: Tables, columns: Columns, jobs: seq<Job>, slot: Slot)
    requires Lawful(plan.cipher)
    ensures Stored(After(plan, tables, columns, jobs), slot)
            == (if Reached(tables, jobs, slot) then RewriteAll(plan.At(slot), Stored(columns, slot))
                else Stored(columns, slot))
    ensures After(plan, tables, columns, jobs).Keys == columns.Keys
  {
    if jobs != [] {
      var front, last := jobs[..|jobs| - 1], jobs[|jobs| - 1];
      Snoc(jobs);
      AfterColumn(plan, tables, columns, front, slot);
      if SlotOf(last) == slot && TableOf(tables, last) {
        assert last in jobs;
        RewriteAllIdempotent(plan.At(slot), plan.At(slot), Stored(columns, slot));
      } else {
        assert Reached(tables, jobs, slot) <==> Reached(tables, front, slot);
      }
    }
  }

  /** Readers with the run's keys see the same plaintext in every cell of every column. */
  lemma ReadersUnaffected(plan: Plan, tables: Tables, columns: Columns, jobs: seq<Job>, slot: Slot, i: nat)
    requires Lawful(plan.cipher) && i < |Stored(columns, slot)|
    ensures |Stored(After(plan, tables, columns, jobs), slot)| == |Stored(columns, slot)|
    ensures var was, now := Stored(columns, slot)[i], Stored(After(plan, tables, columns, jobs), slot)[i];
            && now.id == was.id
            && (now.value.Some? <==> was.value.Some?)
            && (was.value.Some? ==>
                  Readable(plan.cipher, plan.keys, now.value.value)
                    == Readable(plan.cipher, plan.keys, was.value.value))
            && (!Reached(tables, jobs, slot) ==> now == was)
  {
    AfterColumn(plan, tables, columns, jobs, slot);
    RewriteKeepsReading(plan.At(slot), Stored(columns, slot)[i]);
  }

  // ---- Verification after apply ---------------------------------------------------------

  /** Apply reports this column as free of problems. */
  ghost predicate CleanColumn(env: Env, cells: seq<Cell>) {
    var k := TallyOf(env, Apply, SelectedCells(cells)).counts;
    && FirstBlocked(env, SelectedCells(cells)).None?
    && k.nonCiphertext == 0 && k.decryptErrors == 0
  }

  lemma {:induction false} CleanRunCleanColumns(plan: Plan, tables: Tables, columns: Columns, jobs: seq<Job>)
    requires Lawful(plan.cipher)
    requires NothingRefused(plan, tables, columns, jobs)
    requires !Blocking(Apply, Total(Metrics(plan, Apply, tables, columns, jobs)))
    ensures forall job :: job in jobs ==>
              TableOf(tables, job) && CleanColumn(plan.At(SlotOf(job)), Stored(columns, SlotOf(job)))
  {
    if jobs != [] {
      var front, last := jobs[..|jobs| - 1], jobs[|jobs| - 1];
      Snoc(jobs);
      MetricsFront(plan, Apply, tables, columns, jobs);
      PlusBlocking(Apply, Total(Metrics(plan, Apply, tables, columns, front)),
                   JobTally(plan, Apply, tables, After(plan, tables, columns, front), last).counts);
      CleanRunCleanColumns(plan, tables, columns, front);
      LastIsClean(plan, tables, columns, front, last);
      assert forall job :: job in jobs ==> job in front || job == last;
    }
  }

  lemma LastIsClean(plan: Plan, tables: Tables, columns: Columns, front: seq<Job>, last: Job)
    requires Lawful(plan.cipher)
    requires forall job :: job in front ==>
               TableOf(tables, job) && CleanColumn(plan.At(SlotOf(job)), Stored(columns, SlotOf(job)))
    requires TableOf(tables, last) ==>
               FirstBlocked(plan.At(SlotOf(last)),
                            SelectedCells(Stored(After(plan, tables, columns, front), SlotOf(last)))).None?
    requires !Blocking(Apply, JobTally(plan, Apply, tables, After(plan, tables, columns, front), last).counts)
    ensures TableOf(tables, last) && CleanColumn(plan.At(SlotOf(last)), Stored(columns, SlotOf(last)))
  {
    AfterColumn(plan, tables, columns, front, SlotOf(last));
    if Reached(tables, front, SlotOf(last)) {
      var job :| job in front && SlotOf(job) == SlotOf(last) && TableOf(tables, job);
    }
  }

  lemma PlusBlocking(mode: Mode, a: Counts, b: Counts)
    ensures Blocking(mode, Plus(a, b)) <==> Blocking(mode, a) || Blocking(mode, b)
  {
  }

  lemma MetricsFront(plan: Plan, mode: Mode, tables: Tables, columns: Columns, jobs: seq<Job>)
    requires jobs != []
    ensures var front, last := jobs[..|jobs| - 1], jobs[|jobs| - 1];
            Total(Metrics(plan, mode, tables, columns, jobs))
            == Plus(Total(Metrics(plan, mode, tables, columns, front)),
                    JobTally(plan, mode, tables, ColumnsAfter(plan, mode, tables, columns, front), last).counts)
  {
    var ms := Metrics(plan, mode, tables, columns, jobs);
    assert ms[..|ms| - 1] == Metrics(plan, mode, tables, columns, jobs[..|jobs| - 1]);
  }

  /** One clean column after apply, as verification and a second apply tally it. */
  lemma SettledCells(env: Env, later: Env, cells: seq<Cell>)
    requires Lawful(env.cipher) && later.cipher == env.cipher && later.keys == env.keys && CleanColumn(env, cells)
    ensures var now := SelectedCells(RewriteAll(env, cells));
            && !Blocking(VerifyPiiOnly, TallyOf(later, VerifyPiiOnly, now).counts)
            && TallyOf(later, Apply, now).counts.reencrypted == 0
  {
    SelectedRewriteAll(env, cells);
    NoneBlocked(env, SelectedCells(cells));
    SettledColumn(env, later, SelectedCells(cells));
    CandidatesSplit(later, VerifyPiiOnly, RewriteAll(env, SelectedCells(cells)));
  }

  lemma SettledJob(plan: Plan, later: Plan, tables: Tables, columns: Columns, jobs: seq<Job>, job: Job)
    requires Lawful(plan.cipher) && SameKeys(plan, later)
    requires job in jobs && TableOf(tables, job) && CleanColumn(plan.At(SlotOf(job)), Stored(columns, SlotOf(job)))
    ensures !Blocking(VerifyPiiOnly,
                      JobTally(later, VerifyPiiOnly, tables, After(plan, tables, columns, jobs), job).counts)
    ensures JobTally(later, Apply, tables, After(plan, tables, columns, jobs), job).counts.reencrypted == 0
  {
    AfterColumn(plan, tables, columns, jobs, SlotOf(job));
    SettledCells(plan.At(SlotOf(job)), later.At(SlotOf(job)), Stored(columns, SlotOf(job)));
  }

  lemma {:induction false} VerifyTotals(later: Plan, tables: Tables, columns: Columns, jobs: seq<Job>)
    requires forall job :: job in jobs ==>
             !Blocking(VerifyPiiOnly, JobTally(later, VerifyPiiOnly, tables, columns, job).counts)
    ensures !Blocking(VerifyPiiOnly, Total(Metrics(later, VerifyPiiOnly, tables, columns, jobs)))
  {
    if jobs != [] {
      Snoc(jobs);
      VerifyTotals(later, tables, columns, jobs[..|jobs| - 1]);
      MetricsFront(later, VerifyPiiOnly, tables, columns, jobs);
      PlusBlocking(VerifyPiiOnly, Total(Metrics(later, VerifyPiiOnly, tables, columns, jobs[..|jobs| - 1])),
                   JobTally(later, VerifyPiiOnly, tables, columns, jobs[|jobs| - 1]).counts);
    }
  }

  /**
   * When an applied run reports nothing blocking, verification of the tables it
   * left, with any later IVs, reports nothing pending and nothing blocking.
   */
  lemma VerifyAfterApply(plan: Plan, later: Plan, tables: Tables, columns: Columns, jobs: seq<Job>)
    requires Lawful(plan.cipher) && SameKeys(plan, later)
    requires NothingRefused(plan, tables, columns, jobs)
    requires !ReportOf(Apply, Metrics(plan, Apply, tables, columns, jobs)).hasBlockingIssues
    ensures var report := ReportOf(VerifyPiiOnly,
                                   Metrics(later, VerifyPiiOnly, tables, After(plan, tables, columns, jobs), jobs));
            report.pending == 0 && !report.hasBlockingIssues
  {
    CleanRunCleanColumns(plan, tables, columns, jobs);
    forall job | job in jobs
      ensures !Blocking(VerifyPiiOnly,
                        JobTally(later, VerifyPiiOnly, tables, After(plan, tables, columns, jobs), job).counts)
    {
      SettledJob(plan, later, tables, columns, jobs, job);
    }
    VerifyTotals(later, tables, After(plan, tables, columns, jobs), jobs);
  }

  // ---- A second apply ---------------------------------------------------------------------

  /** A completed run met no cell whose write the database refuses in any column that it reached. */
  lemma {:induction false} NoneRefused(plan: Plan, tables: Tables, columns: Columns, jobs: seq<Job>, slot: Slot)
    requires Lawful(plan.cipher) && NothingRefused(plan, tables, columns, jobs) && Reached(tables, jobs, slot)
    ensures forall c :: c in Stored(columns, slot) ==> !Blocked(plan.At(slot), c)
  {
    var front, last := jobs[..|jobs| - 1], jobs[|jobs| - 1];
    Snoc(jobs);
    AfterColumn(plan, tables, columns, front, slot);
    if Reached(tables, front, slot) {
      NoneRefused(plan, tables, columns, front, slot);
    } else {
      var job :| job in jobs && SlotOf(job) == slot && TableOf(tables, job);
      assert job == last;
      NoneRefusedInColumn(plan.At(slot), Stored(columns, slot));
    }
  }

  lemma NoneRefusedInColumn(env: Env, cells: seq<Cell>)
    requires FirstBlocked(env, SelectedCells(cells)).None?
    ensures forall c :: c in cells ==> !Blocked(env, c)
  {
    NoneBlocked(env, SelectedCells(cells));
    forall c | c in cells ensures !Blocked(env, c) {
      if Selected(c) {
        SelectedMembers(cells);
      } else {
        NotSelectedKept(env, c);
      }
    }
  }

  /** A column that the first run could finish is left alone by the second, whatever the database refuses by then. */
  lemma ColumnStays(plan: Plan, later: Plan, tables: Tables, columns: Columns, jobs: seq<Job>, slot: Slot)
    requires Lawful(plan.cipher) && SameKeys(plan, later)
    requires NothingRefused(plan, tables, columns, jobs) && Reached(tables, jobs, slot)
    ensures var once := Stored(After(plan, tables, columns, jobs), slot); RewriteAll(later.At(slot), once) == once
  {
    AfterColumn(plan, tables, columns, jobs, slot);
    NoneRefused(plan, tables, columns, jobs, slot);
    RewriteAllSettled(plan.At(slot), later.At(slot), Stored(columns, slot));
  }

  /** One more job that finds its column settled. */
  lemma NothingMoved(later: Plan, tables: Tables, once: Columns, part: seq<Job>, slot: Slot)
    requires part != [] && slot == SlotOf(part[|part| - 1])
    requires After(later, tables, once, part[..|part| - 1]) == once
    requires RewriteAll(later.At(slot), Stored(once, slot)) == Stored(once, slot)
    ensures After(later, tables, once, part) == once
  {
  }

  lemma {:induction false} NothingMovedByPart(plan: Plan, later: Plan, tables: Tables, columns: Columns, jobs: seq<Job>,
                                              part: seq<Job>)
    requires Lawful(plan.cipher) && SameKeys(plan, later) && NothingRefused(plan, tables, columns, jobs)
    requires forall job :: job in part ==> job in jobs && TableOf(tables, job)
    ensures After(later, tables, After(plan, tables, columns, jobs), part) == After(plan, tables, columns, jobs)
  {
    if part != [] {
      var front, last := part[..|part| - 1], part[|part| - 1];
      Snoc(part);
      NothingMovedByPart(plan, later, tables, columns, jobs, front);
      assert last in part;
      ColumnStays(plan, later, tables, columns, jobs, SlotOf(last));
      NothingMoved(later, tables, After(plan, tables, columns, jobs), part, SlotOf(last));
    }
  }

  lemma {:induction false} SecondTotals(plan: Plan, later: Plan, tables: Tables, columns: Columns, jobs: seq<Job>,
                                        part: seq<Job>)
    requires Lawful(plan.cipher) && SameKeys(plan, later) && NothingRefused(plan, tables, columns, jobs)
    requires forall job :: job in part ==> job in jobs
    requires forall job :: job in jobs ==>
               TableOf(tables, job) && CleanColumn(plan.At(SlotOf(job)), Stored(columns, SlotOf(job)))
    ensures Total(Metrics(later, Apply, tables, After(plan, tables, columns, jobs), part)).reencrypted == 0
  {
    if part != [] {
      var front, last := part[..|part| - 1], part[|part| - 1];
      Snoc(part);
      SecondTotals(plan, later, tables, columns, jobs, front);
      MetricsFront(later, Apply, tables, After(plan, tables, columns, jobs), part);
      SettledJob(plan, later, tables, columns, jobs, last);
      NothingMovedByPart(plan, later, tables, columns, jobs, front);
    }
  }

  /** A second apply after a run without blocking issues re-encrypts nothing. */
  lemma SecondApplyCountsNothing(plan: Plan, later: Plan, tables: Tables, columns: Columns, jobs: seq<Job>)
    requires Lawful(plan.cipher) && SameKeys(plan, later)
    requires NothingRefused(plan, tables, columns, jobs)
    requires !ReportOf(Apply, Metrics(plan, Apply, tables, columns, jobs)).hasBlockingIssues
    ensures ReportOf(Apply, Metrics(later, Apply, tables, After(plan, tables, columns, jobs), jobs)).totals.reencrypted
            == 0
  {
    CleanRunCleanColumns(plan, tables, columns, jobs);
    SecondTotals(plan, later, tables, columns, jobs, jobs);
  }

  // ---- The rehearsal ------------------------------------------------------------------------

  /**
   * A column that several jobs name has nothing to re-encrypt. The dry run's own
   * report shows this, since it gives the count of every target.
   */
  ghost predicate HarmlessRepeats(plan: Plan, tables: Tables, columns: Columns, jobs: seq<Job>) {
    forall i, j :: 0 <= i < j < |jobs| && SlotOf(jobs[i]) == SlotOf(jobs[j]) ==>
      JobTally(plan, DryRun, tables, columns, jobs[i]).counts.reencrypted == 0
  }

  lemma RepeatsSnoc(plan: Plan, tables: Tables, columns: Columns, jobs: seq<Job>, front: seq<Job>, last: Job)
    requires jobs == front + [last]
    ensures HarmlessRepeats(plan, tables, columns, jobs) <==>
            && HarmlessRepeats(plan, tables, columns, front)
            && (Reached(tables, front, SlotOf(last)) ==>
                  JobTally(plan, DryRun, tables, columns, last).counts.reencrypted == 0)
  {
    assert forall i :: 0 <= i < |front| ==> jobs[i] == front[i] && front[i] in front;
    forall i | 0 <= i < |front| && SlotOf(front[i]) == SlotOf(last)
      ensures JobTally(plan, DryRun, tables, columns, front[i]) == JobTally(plan, DryRun, tables, columns, last)
    {
    }
    if Reached(tables, front, SlotOf(last)) {
      var i :| 0 <= i < |front| && SlotOf(front[i]) == SlotOf(last);
      assert SlotOf(jobs[i]) == SlotOf(jobs[|front|]);
    }
  }

  lemma {:induction false} NoneReencrypted(env: Env, cells: seq<Cell>)
    ensures TallyOf(env, Apply, cells).counts.reencrypted == 0
            <==> forall i :: 0 <= i < |cells| ==> !Classify(env, Apply, cells[i]).Reencrypted?
  {
    if cells != [] {
      var n := |cells| - 1;
      NoneReencrypted(env, cells[..n]);
      assert forall i :: 0 <= i < n ==> cells[..n][i] == cells[i];
    }
  }

  /** Rows that were rewritten once are counted the same again exactly when there was nothing to rewrite. */
  lemma CountedAgain(env: Env, cells: seq<Cell>)
    requires Lawful(env.cipher) && forall c :: c in cells ==> !Blocked(env, c)
    ensures forall c :: c in RewriteAll(env, cells) ==> !Blocked(env, c)
    ensures TallyOf(env, Apply, RewriteAll(env, cells)).counts.reencrypted == 0
    ensures TallyOf(env, Apply, cells).counts.reencrypted == 0 ==> RewriteAll(env, cells) == cells
  {
    var again := RewriteAll(env, cells);
    forall i | 0 <= i < |cells|
      ensures !Blocked(env, again[i]) && !Classify(env, Apply, again[i]).Reencrypted?
      ensures !Classify(env, Apply, cells[i]).Reencrypted? ==> again[i] == cells[i]
    {
      RewriteSettles(env, env, cells[i]);
    }
    NoneReencrypted(env, again);
    NoneReencrypted(env, cells);
  }

  /** One target: whether apply's counts are those of the rehearsal, and that no row will be refused. */
  lemma DryRunJob(plan: Plan, later: Plan, tables: Tables, columns: Columns, front: seq<Job>, job: Job)
    requires Lawful(plan.cipher) && SameKeys(plan, later) && later.rejects == plan.rejects
    requires JobTally(plan, DryRun, tables, columns, job).counts.writeBlocked == 0
    ensures var now := After(later, tables, columns, front);
            && (TableOf(tables, job) ==>
                  FirstBlocked(later.At(SlotOf(job)), SelectedCells(Stored(now, SlotOf(job)))).None?)
            && (JobTally(later, Apply, tables, now, job) == JobTally(plan, DryRun, tables, columns, job) <==>
                (Reached(tables, front, SlotOf(job)) ==>
                   JobTally(plan, DryRun, tables, columns, job).counts.reencrypted == 0))
  {
    var slot := SlotOf(job);
    if TableOf(tables, job) {
      var env, cells := later.At(slot), Stored(columns, slot);
      RehearsalPredicts(plan.At(slot), env, SelectedCells(cells));
      AfterColumn(later, tables, columns, front, slot);
      SelectedRewriteAll(env, cells);
      NoneBlocked(env, SelectedCells(cells));
      CountedAgain(env, SelectedCells(cells));
      NoneBlocked(env, RewriteAll(env, SelectedCells(cells)));
    }
  }

  /**
   * When a dry run reports no refused write, apply meets none, and apply's
   * report has the same counts for every target, whatever IVs it draws, if and
   * only if no column with something to re-encrypt is named twice: the second
   * job of such a column finds it settled.
   */
  lemma {:induction false} DryRunPredictsApply(plan: Plan, later: Plan, tables: Tables, columns: Columns,
                                               jobs: seq<Job>)
    requires Lawful(plan.cipher) && SameKeys(plan, later) && later.rejects == plan.rejects
    requires Total(Metrics(plan, DryRun, tables, columns, jobs)).writeBlocked == 0
    ensures NothingRefused(later, tables, columns, jobs)
    ensures Metrics(later, Apply, tables, columns, jobs) == Metrics(plan, DryRun, tables, columns, jobs)
            <==> HarmlessRepeats(plan, tables, columns, jobs)
  {
    if jobs != [] {
      var front, last := jobs[..|jobs| - 1], jobs[|jobs| - 1];
      Snoc(jobs);
      MetricsFront(plan, DryRun, tables, columns, jobs);
      DryRunPredictsApply(plan, later, tables, columns, front);
      DryRunJob(plan, later, tables, columns, front, last);
      RepeatsSnoc(plan, tables, columns, jobs, front, last);
      MetricsEqual(plan, later, tables, columns, jobs);
    }
  }

  /** So an apply run that was rehearsed without refused writes ends with its report. */
  lemma RehearsedApplyCompletes(plan: Plan, later: Plan, tables: Tables, columns: Columns, jobs: seq<Job>, now: Columns,
                                error: RunError)
    requires Lawful(plan.cipher) && SameKeys(plan, later) && later.rejects == plan.rejects
    requires Total(Metrics(plan, DryRun, tables, columns, jobs)).writeBlocked == 0
    ensures !StoppedAt(later, Apply, tables, columns, jobs, now, error)
  {
    DryRunPredictsApply(plan, later, tables, columns, jobs);
  }

  lemma MetricsEqual(plan: Plan, later: Plan, tables: Tables, columns: Columns, jobs: seq<Job>)
    requires jobs != []
    ensures var front, last := jobs[..|jobs| - 1], jobs[|jobs| - 1];
            Metrics(later, Apply, tables, columns, jobs) == Metrics(plan, DryRun, tables, columns, jobs) <==>
            && Metrics(later, Apply, tables, columns, front) == Metrics(plan, DryRun, tables, columns, front)
            && JobTally(later, Apply, tables, After(later, tables, columns, front), last)
               == JobTally(plan, DryRun, tables, columns, last)
  {
    var front := jobs[..|jobs| - 1];
    var a, d := Metrics(later, Apply, tables, columns, jobs), Metrics(plan, DryRun, tables, columns, jobs);
    assert a[..|front|] == Metrics(later, Apply, tables, columns, front);
    assert d[..|front|] == Metrics(plan, DryRun, tables, columns, front);
    assert a == a[..|front|] + [a[|front|]] && d == d[..|front|] + [d[|front|]];
  }

  // ---- A column named twice -------------------------------------------------------------------

  /** The empty key is active, [1] is the previous one, and the database refuses nothing. */
  function RepeatPlan(): Plan {
    Plan(Cipher(CipherWitness.Open, CipherWitness.Seal), Keys([], Some([1]), []), (slot, id) => 0, (slot, id) => None)
  }

  /** One row under the previous key. */
  function RepeatRow(text: string): Cell {
    Cell("1", Some(CipherWitness.Seal([1], 0, text)))
  }

  lemma RepeatRowIsRewritten(slot: Slot, text: string)
    ensures Selected(RepeatRow(text))
    ensures Classify(RepeatPlan().At(slot), DryRun, RepeatRow(text)).Reencrypted?
  {
    CipherWitness.OtherKeyRefused([1], 0, text);
    CipherWitness.SealShape([1], 0, text);
    CiphertextNotBlank(RepeatRow(text).value.value);
  }

  /** With two jobs on a column that holds such a row, apply reports other counts than the dry run. */
  lemma RepeatedColumnMispredicts(job: Job, text: string)
    ensures var plan, tables, columns := RepeatPlan(), {(job.schema, job.table)}, map[SlotOf(job) := [RepeatRow(text)]];
            && Lawful(plan.cipher)
            && Total(Metrics(plan, DryRun, tables, columns, [job, job])).writeBlocked == 0
            && Metrics(plan, Apply, tables, columns, [job, job]) != Metrics(plan, DryRun, tables, columns, [job, job])
  {
    var plan, tables, columns := RepeatPlan(), {(job.schema, job.table)}, map[SlotOf(job) := [RepeatRow(text)]];
    CipherWitness.LawfulIsPossible();
    RepeatTally(job, text);
    MetricsFront(plan, DryRun, tables, columns, [job, job]);
    MetricsFront(plan, DryRun, tables, columns, [job]);
    assert [job, job][..1] == [job] && [job][..0] == [];
    DryRunPredictsApply(plan, plan, tables, columns, [job, job]);
    assert SlotOf([job, job][0]) == SlotOf([job, job][1]);
  }

  lemma RepeatTally(job: Job, text: string)
    ensures var k := JobTally(RepeatPlan(), DryRun, {(job.schema, job.table)},
                              map[SlotOf(job) := [RepeatRow(text)]], job).counts;
            k.reencrypted == 1 && k.writeBlocked == 0
  {
    RepeatRowIsRewritten(SlotOf(job), text);
    OneRow(RepeatPlan().At(SlotOf(job)), RepeatRow(text));
  }

  lemma OneRow(env: Env, c: Cell)
    requires Selected(c) && Classify(env, DryRun, c).Reencrypted?
    ensures var k := TallyOf(env, DryRun, SelectedCells([c])).counts; k.reencrypted == 1 && k.writeBlocked == 0
  {
    SelectedCons(c, []);
    assert [c] + [] == [c] && SelectedCells([]) == [] && [c][..0] == [];
    assert SelectedCells([c]) == [c];
  }

  // ---- Every report adds up --------------------------------------------------------------------

  /** The refused writes of all targets, summed over their SQLSTATEs. */
  ghost function RefusedBySqlState(targets: seq<TargetMetrics>): nat {
    if targets == [] then 0
    else RefusedBySqlState(targets[..|targets| - 1]) + Sum(targets[|targets| - 1].tally.bySqlState)
  }

  function Missing(tables: Tables, job: Job): nat {
    if TableOf(tables, job) then 0 else 1
  }

  function MissingTables(tables: Tables, jobs: seq<Job>): nat {
    if jobs == [] then 0 else MissingTables(tables, jobs[..|jobs| - 1]) + Missing(tables, jobs[|jobs| - 1])
  }

  /**
   * Every candidate is in exactly one of the other totals, the totals that the
   * mode never uses are zero, and refused writes and missing tables are these.
   */
  ghost predicate Splits(k: Counts, mode: Mode, refused: nat, missing: nat) {
    && k.candidates == k.skippedAlreadyPii + k.reencrypted + k.nonCiphertext + k.decryptErrors
                       + k.writeBlocked + k.mfaOnlyRemaining + k.piiPreviousRemaining
    && ModeClasses(k, mode)
    && k.writeBlocked == refused && k.skippedMissingTable == missing
  }

  lemma PlusSplits(mode: Mode, a: Counts, refusedA: nat, missingA: nat, b: Counts, refusedB: nat, missingB: nat,
                   k: Counts, refused: nat, missing: nat)
    requires Splits(a, mode, refusedA, missingA) && Splits(b, mode, refusedB, missingB)
    requires k == Plus(a, b) && refused == refusedA + refusedB && missing == missingA + missingB
    ensures Splits(k, mode, refused, missing)
  {
  }

  lemma JobSplits(plan: Plan, mode: Mode, tables: Tables, columns: Columns, job: Job)
    ensures var t := JobTally(plan, mode, tables, columns, job);
            Splits(t.counts, mode, Sum(t.bySqlState), Missing(tables, job))
  {
    if TableOf(tables, job) {
      CandidatesSplit(plan.At(SlotOf(job)), mode, SelectedCells(Stored(columns, SlotOf(job))));
    } else {
      assert JobTally(plan, mode, tables, columns, job) == Tally(ZERO.(skippedMissingTable := 1), map[]);
    }
  }

  lemma TotalsSnoc(was: seq<TargetMetrics>, target: TargetMetrics, now: seq<TargetMetrics>)
    requires now == was + [target]
    ensures Total(now) == Plus(Total(was), target.tally.counts)
    ensures RefusedBySqlState(now) == RefusedBySqlState(was) + Sum(target.tally.bySqlState)
  {
    assert now[..|now| - 1] == was;
  }

  /** The totals of a report, with so many targets without a table. */
  ghost predicate ReportSplits(targets: seq<TargetMetrics>, mode: Mode, missing: nat) {
    Splits(Total(targets), mode, RefusedBySqlState(targets), missing)
  }

  lemma NoTargets(mode: Mode)
    ensures ReportSplits([], mode, 0)
  {
  }

  lemma OneMoreTarget(mode: Mode, was: seq<TargetMetrics>, missing: nat, target: TargetMetrics, absent: nat,
                      now: seq<TargetMetrics>, missingNow: nat)
    requires ReportSplits(was, mode, missing) && now == was + [target] && missingNow == missing + absent
    requires Splits(target.tally.counts, mode, Sum(target.tally.bySqlState), absent)
    ensures ReportSplits(now, mode, missingNow)
  {
    TotalsSnoc(was, target, now);
    PlusSplits(mode, Total(was), RefusedBySqlState(was), missing,
               target.tally.counts, Sum(target.tally.bySqlState), absent,
               Total(now), RefusedBySqlState(now), missingNow);
  }

  /**
   * The report of every run in every mode adds up: its candidates split over the
   * totals of that mode, its refused writes over the SQLSTATEs of the targets,
   * and one missing table is counted for each target that has none.
   */
  lemma {:induction false} ReportAddsUp(plan: Plan, mode: Mode, tables: Tables, columns: Columns, jobs: seq<Job>)
    ensures ReportSplits(Metrics(plan, mode, tables, columns, jobs), mode, MissingTables(tables, jobs))
  {
    if jobs == [] {
      NoTargets(mode);
    } else {
      var front, last := jobs[..|jobs| - 1], jobs[|jobs| - 1];
      var columnsNow := ColumnsAfter(plan, mode, tables, columns, front);
      ReportAddsUp(plan, mode, tables, columns, front);
      JobSplits(plan, mode, tables, columnsNow, last);
      OneMoreTarget(mode, Metrics(plan, mode, tables, columns, front), MissingTables(tables, front),
                    TargetMetrics(last.schema, last.entityType, JobTally(plan, mode, tables, columnsNow, last)),
                    Missing(tables, last), Metrics(plan, mode, tables, columns, jobs), MissingTables(tables, jobs));
    }
  }
}
