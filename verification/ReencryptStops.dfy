/**
 * What an applied run leaves when the database refuses a write: the state is
 * exact, every reader reads on, and a second run stops at the same row.
 */
module ReencryptStops {
  import opened FieldCipher
  import opened ReencryptPii
  import opened ReencryptRun
  import opened ReencryptGuarantees

  // ---- One column -----------------------------------------------------------------------------

  /** The first n of the selected rows rewritten, the others as they were. */
  lemma SelectedAfter(env: Env, cells: seq<Cell>, n: nat, i: nat)
    requires Lawful(env.cipher) && UniqueIds(cells) && n <= |SelectedCells(cells)| && i < |SelectedCells(cells)|
    ensures var now := SelectedCells(ColumnAfter(env, Apply, cells, n));
            && |now| == |SelectedCells(cells)|
            && now[i] == (if i < n then Rewrite(env, SelectedCells(cells)[i]) else SelectedCells(cells)[i])
  {
    var selected := SelectedCells(cells);
    SelectedUnique(cells);
    SelectedRewriteDone(env, cells, Ids(selected[..n]));
    if i < n {
      assert selected[..n][i] in selected[..n];
    } else {
      RestUntouched(env, selected, n);
      var now := RewriteDone(env, selected, Ids(selected[..n]));
      assert now[n..][i - n] == selected[n..][i - n];
    }
  }

  /** A row before the refusal: written once, it is neither refused nor written again. */
  lemma AcceptedRowSettled(env: Env, later: Env, cells: seq<Cell>, i: nat)
    requires Lawful(env.cipher) && later.cipher == env.cipher && later.keys == env.keys
    requires UniqueIds(cells) && i < AcceptedRows(env, SelectedCells(cells))
    ensures i < |SelectedCells(LeftColumn(env, cells))|
    ensures var row := SelectedCells(LeftColumn(env, cells))[i];
            && row == Rewrite(env, SelectedCells(cells)[i])
            && !Blocked(later, row) && Rewrite(later, row) == row
  {
    var selected := SelectedCells(cells);
    SelectedAfter(env, cells, AcceptedRows(env, selected), i);
    AcceptedRowsPass(env, selected, i);
    RewriteSettles(env, later, selected[i]);
  }

  /** The second run accepts at least the rows that the first accepted. */
  lemma AcceptedAgain(env: Env, later: Env, cells: seq<Cell>)
    requires Lawful(env.cipher) && later.cipher == env.cipher && later.keys == env.keys && UniqueIds(cells)
    ensures AcceptedRows(env, SelectedCells(cells)) <= AcceptedRows(later, SelectedCells(LeftColumn(env, cells)))
    ensures |SelectedCells(LeftColumn(env, cells))| == |SelectedCells(cells)|
  {
    var now, n := SelectedCells(LeftColumn(env, cells)), AcceptedRows(env, SelectedCells(cells));
    SelectedLength(env, cells, n);
    forall i | 0 <= i < n ensures !Blocked(later, now[i]) {
      AcceptedRowSettled(env, later, cells, i);
    }
    AcceptedRowsReach(later, now, n);
  }

  /** The row that was refused is still as it was, and refused again. */
  lemma RefusedAgain(env: Env, later: Env, cells: seq<Cell>, n: nat)
    requires Lawful(env.cipher) && later.cipher == env.cipher && later.keys == env.keys && UniqueIds(cells)
    requires later.rejects == env.rejects && n == AcceptedRows(env, SelectedCells(cells)) < |SelectedCells(cells)|
    ensures n < |SelectedCells(LeftColumn(env, cells))|
    ensures SelectedCells(LeftColumn(env, cells))[n] == SelectedCells(cells)[n]
    ensures Classify(later, Apply, SelectedCells(cells)[n]) == Classify(env, Apply, SelectedCells(cells)[n])
  {
    SelectedAfter(env, cells, n, n);
    RefusedAlike(env, later, SelectedCells(cells)[n]);
  }

  lemma RefusedAlike(env: Env, later: Env, c: Cell)
    requires later.cipher == env.cipher && later.keys == env.keys && later.rejects == env.rejects && Blocked(env, c)
    ensures Classify(later, Apply, c) == Classify(env, Apply, c)
  {
  }

  /** The second run accepts exactly as many rows as the first, and is refused the same row. */
  lemma SameRefusal(env: Env, later: Env, cells: seq<Cell>)
    requires Lawful(env.cipher) && later.cipher == env.cipher && later.keys == env.keys && UniqueIds(cells)
    requires later.rejects == env.rejects || FirstBlocked(env, SelectedCells(cells)).None?
    ensures var now := SelectedCells(LeftColumn(env, cells));
            && AcceptedRows(later, now) == AcceptedRows(env, SelectedCells(cells))
            && FirstBlocked(later, now) == FirstBlocked(env, SelectedCells(cells))
  {
    var n := AcceptedRows(env, SelectedCells(cells));
    AcceptedAgain(env, later, cells);
    if n < |SelectedCells(cells)| {
      RefusedAgain(env, later, cells, n);
      NextAccepted(later, SelectedCells(LeftColumn(env, cells)), n);
    }
  }

  lemma SelectedLength(env: Env, cells: seq<Cell>, n: nat)
    requires Lawful(env.cipher) && n <= |SelectedCells(cells)|
    ensures |SelectedCells(ColumnAfter(env, Apply, cells, n))| == |SelectedCells(cells)|
  {
    SelectedRewriteDone(env, cells, Ids(SelectedCells(cells)[..n]));
  }

  /** The ids of the rows before the refusal are those of the rows that were written. */
  lemma SameIds(env: Env, cells: seq<Cell>)
    requires Lawful(env.cipher) && UniqueIds(cells)
    ensures var n, now := AcceptedRows(env, SelectedCells(cells)), SelectedCells(LeftColumn(env, cells));
            n <= |now| && Ids(now[..n]) == Ids(SelectedCells(cells)[..n])
  {
    var selected := SelectedCells(cells);
    var n, now := AcceptedRows(env, selected), SelectedCells(LeftColumn(env, cells));
    SelectedLength(env, cells, n);
    forall i | 0 <= i < n ensures now[..n][i].id == selected[..n][i].id {
      AcceptedRowSettled(env, env, cells, i);
    }
    SameIdsOf(now[..n], selected[..n]);
  }

  lemma SameIdsOf(a: seq<Cell>, b: seq<Cell>)
    requires |a| == |b| && forall i :: 0 <= i < |a| ==> a[i].id == b[i].id
    ensures Ids(a) == Ids(b)
  {
    forall c | c in a ensures c.id in Ids(b) {
      var i :| 0 <= i < |a| && a[i] == c;
      assert b[i] in b;
    }
    forall c | c in b ensures c.id in Ids(a) {
      var i :| 0 <= i < |b| && b[i] == c;
      assert a[i] in a;
    }
  }

  /** A cell of a row before the refusal is rewritten, and stays as it is in a second run. */
  lemma WrittenCell(env: Env, later: Env, cells: seq<Cell>, j: nat)
    requires Lawful(env.cipher) && later.cipher == env.cipher && later.keys == env.keys && UniqueIds(cells)
    requires j < |cells|
    requires cells[j].id in Ids(SelectedCells(cells)[..AcceptedRows(env, SelectedCells(cells))])
    ensures Rewrite(later, LeftColumn(env, cells)[j]) == LeftColumn(env, cells)[j]
  {
    var selected := SelectedCells(cells);
    var n := AcceptedRows(env, selected);
    var c :| c in selected[..n] && c.id == cells[j].id;
    var i :| 0 <= i < n && selected[i] == c;
    SelectedUnique(cells);
    assert c in selected;
    SameIdSameCell(cells, c);
    assert cells[j] in cells && cells[j] == c;
    AcceptedRowSettled(env, later, cells, i);
  }

  /** What one applied run leaves in a column the next one leaves as it is. */
  lemma LeftTwice(env: Env, later: Env, cells: seq<Cell>)
    requires Lawful(env.cipher) && later.cipher == env.cipher && later.keys == env.keys && UniqueIds(cells)
    requires later.rejects == env.rejects || FirstBlocked(env, SelectedCells(cells)).None?
    ensures LeftColumn(later, LeftColumn(env, cells)) == LeftColumn(env, cells)
    ensures FirstBlocked(later, SelectedCells(LeftColumn(env, cells))) == FirstBlocked(env, SelectedCells(cells))
  {
    var once := LeftColumn(env, cells);
    SameRefusal(env, later, cells);
    SameIds(env, cells);
    forall j | 0 <= j < |cells| ensures LeftColumn(later, once)[j] == once[j] {
      assert once[j].id == cells[j].id;
      if cells[j].id in Ids(SelectedCells(cells)[..AcceptedRows(env, SelectedCells(cells))]) {
        WrittenCell(env, later, cells, j);
      }
    }
  }

  // ---- All columns ------------------------------------------------------------------------------

  lemma LeftColumnUnique(env: Env, cells: seq<Cell>)
    requires UniqueIds(cells)
    ensures UniqueIds(LeftColumn(env, cells))
  {
    assert forall c :: Rewrite(env, c).id == c.id;
  }

  lemma {:induction false} LeftUnique(plan: Plan, tables: Tables, columns: Columns, jobs: seq<Job>)
    requires UniqueColumns(columns)
    ensures UniqueColumns(Left(plan, tables, columns, jobs).columns)
    ensures Left(plan, tables, columns, jobs).columns.Keys == columns.Keys
  {
    if jobs != [] {
      var front, slot := jobs[..|jobs| - 1], SlotOf(jobs[|jobs| - 1]);
      LeftUnique(plan, tables, columns, front);
      var before := Left(plan, tables, columns, front).columns;
      if slot in before {
        LeftColumnUnique(plan.At(slot), before[slot]);
      }
    }
  }

  lemma LeftByJobAt(plan: Plan, columns: Columns, slot: Slot, s: Slot)
    ensures Stored(LeftByJob(plan, columns, slot).columns, s)
            == if s == slot then LeftColumn(plan.At(slot), Stored(columns, slot)) else Stored(columns, s)
  {
  }

  lemma StoredUnique(columns: Columns, slot: Slot)
    requires UniqueColumns(columns)
    ensures UniqueIds(Stored(columns, slot))
  {
  }

  /** One more job leaves a settled column as it is. */
  lemma StaysInJob(plan: Plan, tables: Tables, columns: Columns, jobs: seq<Job>, slot: Slot, cells: seq<Cell>)
    requires jobs != [] && cells == Stored(Left(plan, tables, columns, jobs[..|jobs| - 1]).columns, slot)
    requires LeftColumn(plan.At(slot), cells) == cells
    ensures Stored(Left(plan, tables, columns, jobs).columns, slot) == cells
  {
    LeftByJobAt(plan, Left(plan, tables, columns, jobs[..|jobs| - 1]).columns, SlotOf(jobs[|jobs| - 1]), slot);
  }

  /** A column that its own job leaves as it is stays so in the rest of the run. */
  lemma {:induction false} StaysLeft(plan: Plan, tables: Tables, columns: Columns, jobs: seq<Job>, more: seq<Job>,
                                     slot: Slot, cells: seq<Cell>)
    requires cells == Stored(Left(plan, tables, columns, jobs).columns, slot)
    requires LeftColumn(plan.At(slot), cells) == cells
    ensures Stored(Left(plan, tables, columns, jobs + more).columns, slot) == cells
  {
    if more == [] {
      assert jobs + more == jobs;
    } else {
      var front, all := more[..|more| - 1], jobs + more;
      StaysLeft(plan, tables, columns, jobs, front, slot, cells);
      assert all[..|all| - 1] == jobs + front;
      StaysInJob(plan, tables, columns, all, slot, cells);
    }
  }

  /** The job at hand, met again in the columns that the whole run left. */
  lemma JobAgain(plan: Plan, later: Plan, tables: Tables, columns: Columns, front: seq<Job>, job: Job, more: seq<Job>)
    requires Lawful(plan.cipher) && SameKeys(plan, later) && UniqueColumns(columns) && TableOf(tables, job)
    requires Left(plan, tables, columns, front).refused.None?
    requires later.rejects == plan.rejects || Left(plan, tables, columns, front + [job]).refused.None?
    ensures var left := Left(plan, tables, columns, front + [job] + more).columns;
            LeftByJob(later, left, SlotOf(job)) == Stop(left, Left(plan, tables, columns, front + [job]).refused)
  {
    var slot := SlotOf(job);
    var before, upTo := Left(plan, tables, columns, front).columns, front + [job];
    var cells, once := Stored(before, slot), LeftColumn(plan.At(slot), Stored(before, slot));
    assert upTo[..|upTo| - 1] == front;
    assert Left(plan, tables, columns, upTo) == LeftByJob(plan, before, slot);
    LeftByJobAt(plan, before, slot, slot);
    LeftUnique(plan, tables, columns, front);
    StoredUnique(before, slot);
    LeftTwice(plan.At(slot), plan.At(slot), cells);
    StaysLeft(plan, tables, columns, upTo, more, slot, once);
    LeftTwice(plan.At(slot), later.At(slot), cells);
    SameColumnSame(Left(plan, tables, columns, upTo + more).columns, slot);
  }

  lemma SameColumnSame(columns: Columns, slot: Slot)
    ensures slot in columns ==> columns[slot := Stored(columns, slot)] == columns
  {
  }

  /** One more job, when those before it left the columns of the whole run as they are. */
  lemma OneJobAgain(plan: Plan, later: Plan, tables: Tables, columns: Columns, part: seq<Job>, more: seq<Job>,
                    left: Columns)
    requires Lawful(plan.cipher) && SameKeys(plan, later) && UniqueColumns(columns) && part != []
    requires later.rejects == plan.rejects || Left(plan, tables, columns, part).refused.None?
    requires left == Left(plan, tables, columns, part + more).columns
    requires var front := part[..|part| - 1];
             Left(later, tables, left, front) == Stop(left, Left(plan, tables, columns, front).refused)
    ensures Left(later, tables, left, part) == Stop(left, Left(plan, tables, columns, part).refused)
  {
    var front, last := part[..|part| - 1], part[|part| - 1];
    if Left(plan, tables, columns, front).refused.None? && TableOf(tables, last) {
      Snoc(part);
      JobAgain(plan, later, tables, columns, front, last, more);
    }
  }

  /** A part of a run that was refused no write was refused none. */
  lemma PartNotRefused(plan: Plan, tables: Tables, columns: Columns, part: seq<Job>, more: seq<Job>)
    requires Left(plan, tables, columns, part + more).refused.None?
    ensures Left(plan, tables, columns, part).refused.None?
  {
    if Left(plan, tables, columns, part).refused.Some? {
      RefusedStays(plan, tables, columns, part, more);
    }
  }

  lemma Shift(part: seq<Job>, more: seq<Job>, jobs: seq<Job>)
    requires part != [] && jobs == part + more
    ensures jobs == part[..|part| - 1] + ([part[|part| - 1]] + more)
  {
  }

  /** The jobs up to any point, run again over the columns that the whole run left. */
  lemma {:induction false} PartAgain(plan: Plan, later: Plan, tables: Tables, columns: Columns, part: seq<Job>,
                                     more: seq<Job>, jobs: seq<Job>, left: Columns)
    requires Lawful(plan.cipher) && SameKeys(plan, later) && UniqueColumns(columns) && jobs == part + more
    requires later.rejects == plan.rejects || Left(plan, tables, columns, jobs).refused.None?
    requires left == Left(plan, tables, columns, jobs).columns
    ensures Left(later, tables, left, part) == Stop(left, Left(plan, tables, columns, part).refused)
  {
    if part != [] {
      var front, last := part[..|part| - 1], part[|part| - 1];
      Shift(part, more, jobs);
      PartAgain(plan, later, tables, columns, front, [last] + more, jobs, left);
      if Left(plan, tables, columns, jobs).refused.None? {
        PartNotRefused(plan, tables, columns, part, more);
      }
      OneJobAgain(plan, later, tables, columns, part, more, left);
    }
  }

  /**
   * A second apply, with other IVs, changes no byte. After a run that a refused
   * write stopped it stops at the same row with the same SQLSTATE, when the
   * database refuses the same writes; after a completed run it completes,
   * whatever the database would then refuse.
   */
  lemma SecondApplyWritesNothing(plan: Plan, later: Plan, tables: Tables, columns: Columns, jobs: seq<Job>)
    requires Lawful(plan.cipher) && SameKeys(plan, later) && UniqueColumns(columns)
    requires later.rejects == plan.rejects || NothingRefused(plan, tables, columns, jobs)
    ensures Left(later, tables, Left(plan, tables, columns, jobs).columns, jobs) == Left(plan, tables, columns, jobs)
  {
    LeftIffRefused(plan, tables, columns, jobs);
    PartAgain(plan, later, tables, columns, jobs, [], jobs, Left(plan, tables, columns, jobs).columns);
  }

  // ---- Readers after a run that stopped ---------------------------------------------------------

  lemma RewriteTwice(env: Env, c: Cell)
    requires Lawful(env.cipher)
    ensures Rewrite(env, Rewrite(env, c)) == Rewrite(env, c)
  {
    if !Blocked(env, c) {
      RewriteSettles(env, env, c);
    }
  }

  /** Each cell is as it was or rewritten. */
  lemma {:induction false} LeftIsPartly(plan: Plan, tables: Tables, columns: Columns, jobs: seq<Job>, slot: Slot,
                                        i: nat)
    requires Lawful(plan.cipher) && i < |Stored(columns, slot)|
    ensures var was, now := Stored(columns, slot), Stored(Left(plan, tables, columns, jobs).columns, slot);
            |now| == |was| && (now[i] == was[i] || now[i] == Rewrite(plan.At(slot), was[i]))
  {
    if jobs != [] {
      var front, last := jobs[..|jobs| - 1], SlotOf(jobs[|jobs| - 1]);
      LeftIsPartly(plan, tables, columns, front, slot, i);
      LeftByJobAt(plan, Left(plan, tables, columns, front).columns, last, slot);
      RewriteTwice(plan.At(slot), Stored(columns, slot)[i]);
    }
  }

  /** Also after a run that stopped at a refused write, every cell reads as before. */
  lemma ReadersUnaffectedMidway(plan: Plan, tables: Tables, columns: Columns, jobs: seq<Job>, slot: Slot, i: nat)
    requires Lawful(plan.cipher) && i < |Stored(columns, slot)|
    ensures var was, now := Stored(columns, slot), Stored(Left(plan, tables, columns, jobs).columns, slot);
            && |now| == |was| && now[i].id == was[i].id
            && (now[i].value.Some? <==> was[i].value.Some?)
            && (was[i].value.Some? ==>
                  Readable(plan.cipher, plan.keys, now[i].value.value)
                  == Readable(plan.cipher, plan.keys, was[i].value.value))
  {
    LeftIsPartly(plan, tables, columns, jobs, slot, i);
    RewriteKeepsReading(plan.At(slot), Stored(columns, slot)[i]);
  }
}
