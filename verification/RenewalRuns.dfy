/**
 * What holds of whole runs of the renewal protocol: what each tab keeps, and
 * how often it can renew.
 */
module RenewalRuns {
  import opened Options
  import opened SessionTab
  import opened RenewalProtocol

  // ---- Every tab, every run -----------------------------------------------------

  ghost predicate TabsInv(w: World) {
    && |w.inbox| == |w.tabs|
    && forall i :: 0 <= i < |w.tabs| ==> TabInv(w.tabs[i])
  }

  lemma PersistKeepsInv(t: Tab, token: Option<Access>, now: int)
    requires TabInv(t)
    ensures TabInv(Persist(t, token, now))
  {
  }

  lemma ResumeKeepsInv(t: Tab, channels: bool, now: int)
    requires TabInv(t) && t.flight.Landed?
    ensures TabInv(Resume(t, channels, now))
  {
  }

  /** The pieces that start a renewal or send its request. */
  predicate Begins(s: Step) {
    s.Unauthorized? || s.TimerFires? || s.TabShown? || s.EnterLock?
  }

  lemma BeginningKeepsInv(w: World, s: Step)
    requires Enabled(w, s) && Actor(s).Some? && Begins(s) && TabInv(w.tabs[s.i])
    ensures TabInv(TabStep(w, s))
  {
  }

  /** The pieces that write the token. */
  predicate Stores(s: Step) {
    s.ResumeTab? || s.Deliver? || s.SetToken? || s.LocalLogout?
  }

  lemma StoringKeepsInv(w: World, s: Step)
    requires Enabled(w, s) && Actor(s).Some? && Stores(s) && TabInv(w.tabs[s.i])
    ensures TabInv(TabStep(w, s))
  {
    var t := w.tabs[s.i];
    match s
    case ResumeTab(_) => ResumeKeepsInv(t, w.channels, w.now);
    case Deliver(_) => PersistKeepsInv(t.(lastRenewal := w.now), Some(w.inbox[s.i][0]), w.now);
    case SetToken(_, token) => PersistKeepsInv(t, token, w.now);
    case LocalLogout(_) => PersistKeepsInv(t, None, w.now);
  }

  lemma OtherPiecesKeepInv(w: World, s: Step)
    requires Enabled(w, s) && Actor(s).Some? && !Begins(s) && !Stores(s) && TabInv(w.tabs[s.i])
    ensures TabInv(TabStep(w, s))
  {
  }

  lemma PieceKeepsInv(w: World, s: Step)
    requires Enabled(w, s) && Actor(s).Some? && TabInv(w.tabs[s.i])
    ensures TabInv(TabStep(w, s))
  {
    if Begins(s) {
      BeginningKeepsInv(w, s);
    } else if Stores(s) {
      StoringKeepsInv(w, s);
    } else {
      OtherPiecesKeepInv(w, s);
    }
  }

  lemma TabsStep(w: World, s: Step)
    requires TabsInv(w)
    ensures TabsInv(Next(w, s))
  {
    OneTabChanges(w, s);
    SameShape(w, s);
    if Enabled(w, s) && Actor(s).Some? {
      PieceKeepsInv(w, s);
    }
  }

  lemma {:induction false} TabsRun(w: World, steps: seq<Step>)
    requires TabsInv(w)
    ensures TabsInv(Run(w, steps))
    decreases |steps|
  {
    if steps != [] {
      TabsStep(w, steps[0]);
      TabsRun(Next(w, steps[0]), steps[1..]);
    }
  }

  /** The session invariant of every tab in every reachable state, with or without Web Locks. */
  lemma SessionInvariant(n: nat, locks: bool, channels: bool, revokes: bool, now: nat, steps: seq<Step>, i: nat)
    requires i < |Run(Initial(n, locks, channels, revokes, now), steps).tabs|
    ensures var t := Run(Initial(n, locks, channels, revokes, now), steps).tabs[i];
            && (t.terminal ==> t.token.None? && t.timer.None?)
            && (t.timer.Some? ==> UsableExp(t.token).Some? && t.listeners)
            && (t.flight.Outstanding() ==> !t.terminal)
  {
    TabsRun(Initial(n, locks, channels, revokes, now), steps);
  }

  lemma PieceEndsSession(w: World, s: Step)
    requires Enabled(w, s) && Actor(s).Some? && !w.tabs[s.i].terminal && TabStep(w, s).terminal
    ensures s.ResumeTab? && w.tabs[s.i].flight == Landed(Reactive, Refused)
  {
  }

  /** Only the refusal of a renewal that a 401 started ends the session of a tab. */
  lemma TerminalOnlyFromReactiveRefusal(w: World, s: Step, i: nat)
    requires i < |w.tabs| == |Next(w, s).tabs|
    requires !w.tabs[i].terminal && Next(w, s).tabs[i].terminal
    ensures s == ResumeTab(i) && w.tabs[i].flight == Landed(Reactive, Refused)
  {
    OneTabChanges(w, s);
    assert Enabled(w, s) && Actor(s) == Some(i);
    PieceEndsSession(w, s);
  }

  // ---- How often a tab renews -----------------------------------------------------

  ghost predicate RatesInv(w: World) {
    && TabsInv(w) && w.locks
    && forall i :: 0 <= i < |w.tabs| ==> RateInv(w.tabs[i], w.now)
  }

  predicate Renews(w: World, s: Step) {
    Enabled(w, s) && s.ResumeTab? && w.tabs[s.i].flight.reply.Granted?
  }

  predicate Sends(w: World, s: Step) {
    Enabled(w, s) && s.EnterLock? && !(w.locks && MayReuse(w.tabs[s.i], w.now))
  }

  /** A piece that stores no token leaves the record of renewals alone, unless it is a reload. */
  lemma UnstoredRecord(w: World, s: Step)
    requires Enabled(w, s) && Actor(s).Some? && !Stores(s)
    ensures var t, t' := w.tabs[s.i], TabStep(w, s);
            t' == FreshTab() || (t'.token == t.token && t'.renewed == t.renewed && t'.lastRenewal == t.lastRenewal)
  {
  }

  /** A piece that stores a token without renewing keeps the record, or empties it with the token. */
  lemma StoredRecord(w: World, s: Step)
    requires Enabled(w, s) && Actor(s).Some? && Stores(s) && !Renews(w, s)
    ensures var t, t' := w.tabs[s.i], TabStep(w, s);
            && t'.renewed == (if t'.token.Some? then t.renewed else [])
            && (t'.lastRenewal == t.lastRenewal || t'.lastRenewal == w.now)
  {
  }

  lemma OtherPiecesRecord(w: World, s: Step)
    requires Enabled(w, s) && Actor(s).Some? && !Renews(w, s)
    ensures var t, t' := w.tabs[s.i], TabStep(w, s);
            && (t'.renewed == t.renewed || (t'.renewed == [] && t'.token.None?))
            && (t'.lastRenewal == t.lastRenewal || t'.lastRenewal == w.now || t' == FreshTab())
  {
    if Stores(s) {
      StoredRecord(w, s);
    } else {
      UnstoredRecord(w, s);
    }
  }

  lemma OtherPiecesSent(w: World, s: Step)
    requires Enabled(w, s) && Actor(s).Some? && !Sends(w, s)
    ensures TabStep(w, s).flight.Outstanding() ==>
              w.tabs[s.i].flight.Outstanding() && TabStep(w, s).sentAt == w.tabs[s.i].sentAt
  {
  }

  lemma RateTabStep(w: World, s: Step)
    requires RatesInv(w) && Enabled(w, s) && Actor(s).Some?
    ensures RateInv(TabStep(w, s), w.now)
  {
    var t := w.tabs[s.i];
    assert RateInv(t, w.now) && TabInv(t);
    if Renews(w, s) {
      var t' := Resume(t, w.channels, w.now);
      assert t'.renewed == t.renewed + [w.now] && t'.lastRenewal == w.now;
    } else if Sends(w, s) {
      assert Enter(t, w.locks, w.jar, w.now).sentAt == w.now;
    } else {
      OtherPiecesRecord(w, s);
      OtherPiecesSent(w, s);
      RateKept(t, TabStep(w, s), w.now);
    }
  }

  lemma RatesStep(w: World, s: Step)
    requires RatesInv(w)
    ensures RatesInv(Next(w, s))
  {
    TabsStep(w, s);
    if Enabled(w, s) && Actor(s).Some? {
      RateTabStep(w, s);
      assert Next(w, s).tabs == w.tabs[s.i := TabStep(w, s)] && Next(w, s).now == w.now;
    }
  }

  lemma {:induction false} RatesRun(w: World, steps: seq<Step>)
    requires RatesInv(w)
    ensures RatesInv(Run(w, steps))
    decreases |steps|
  {
    if steps != [] {
      RatesStep(w, steps[0]);
      RatesRun(Next(w, steps[0]), steps[1..]);
    }
  }

  /** When tab i renewed by itself along a run. */
  function RenewalTimes(w: World, steps: seq<Step>, i: nat): seq<int>
    decreases |steps|
  {
    if steps == [] then []
    else
      (if Renews(w, steps[0]) && steps[0].i == i then [w.now as int] else [])
      + RenewalTimes(Next(w, steps[0]), steps[1..], i)
  }

  /** Tab i has an access token in every state of the run. */
  ghost predicate NeverEmptied(w: World, steps: seq<Step>, i: nat)
    decreases |steps|
  {
    && i < |w.tabs| && w.tabs[i].token.Some?
    && (steps != [] ==> NeverEmptied(Next(w, steps[0]), steps[1..], i))
  }

  lemma TimeGoesOn(w: World, s: Step)
    ensures Next(w, s).now >= w.now
  {
  }

  lemma {:induction false} TimesAfterStart(w: World, steps: seq<Step>, i: nat)
    requires TabsInv(w)
    ensures Run(w, steps).now >= w.now
    ensures forall t :: t in RenewalTimes(w, steps, i) ==> w.now <= t
    decreases |steps|
  {
    if steps != [] {
      TabsStep(w, steps[0]);
      TimeGoesOn(w, steps[0]);
      TimesAfterStart(Next(w, steps[0]), steps[1..], i);
    }
  }

  /** The first step of a run in which tab i keeps a token, and the world after it. */
  lemma FirstStep(w: World, steps: seq<Step>, i: nat) returns (w': World, first: seq<int>)
    requires TabsInv(w) && NeverEmptied(w, steps, i) && steps != []
    ensures TabsInv(w') && NeverEmptied(w', steps[1..], i) && |w'.tabs| == |w.tabs|
    ensures w'.tabs[i].renewed == w.tabs[i].renewed + first
    ensures Run(w, steps) == Run(w', steps[1..])
    ensures RenewalTimes(w, steps, i) == first + RenewalTimes(w', steps[1..], i)
  {
    var s := steps[0];
    w', first := Next(w, s), if Renews(w, s) && s.i == i then [w.now as int] else [];
    TabsStep(w, s);
    OneTabChanges(w, s);
    RenewedStep(w, s, i);
  }

  lemma {:induction false} RenewalsObserved(w: World, steps: seq<Step>, i: nat)
    requires TabsInv(w) && NeverEmptied(w, steps, i)
    ensures |Run(w, steps).tabs| == |w.tabs|
    ensures Run(w, steps).tabs[i].renewed == w.tabs[i].renewed + RenewalTimes(w, steps, i)
    decreases |steps|
  {
    if steps != [] {
      var w', first := FirstStep(w, steps, i);
      RenewalsObserved(w', steps[1..], i);
    }
  }

  lemma RenewedStep(w: World, s: Step, i: nat)
    requires |w.inbox| == |w.tabs| && i < |w.tabs|
    requires w.tabs[i].token.Some? && |Next(w, s).tabs| == |w.tabs| && Next(w, s).tabs[i].token.Some?
    ensures Next(w, s).now >= w.now
    ensures Next(w, s).tabs[i].renewed
            == w.tabs[i].renewed + (if Renews(w, s) && s.i == i then [w.now as int] else [])
  {
    if Enabled(w, s) && Actor(s).Some? {
      assert Next(w, s).tabs == w.tabs[s.i := TabStep(w, s)];
      if s.i == i {
        RenewedPiece(w, s);
      }
    }
  }

  lemma RenewedPiece(w: World, s: Step)
    requires Enabled(w, s) && Actor(s).Some? && TabStep(w, s).token.Some?
    ensures TabStep(w, s).renewed == w.tabs[s.i].renewed + (if Renews(w, s) then [w.now as int] else [])
  {
    if Renews(w, s) {
      assert TabStep(w, s) == Resume(w.tabs[s.i], w.channels, w.now);
    } else {
      OtherPiecesRecord(w, s);
    }
  }

  /**
   * With Web Locks, in any part of a run in which a tab always has a token, it
   * renews at most once per reuse window of 5 s, plus one.
   */
  lemma RenewalRate(n: nat, channels: bool, revokes: bool, now: nat, before: seq<Step>, steps: seq<Step>, i: nat)
    requires NeverEmptied(Run(Initial(n, true, channels, revokes, now), before), steps, i)
    ensures var w := Run(Initial(n, true, channels, revokes, now), before);
            |RenewalTimes(w, steps, i)| <= (Run(w, steps).now - w.now) / RENEWAL_WINDOW_MS + 1
  {
    RatesRun(Initial(n, true, channels, revokes, now), before);
    var w := Run(Initial(n, true, channels, revokes, now), before);
    RenewalsObserved(w, steps, i);
    TimesAfterStart(w, steps, i);
    RatesRun(w, steps);
    var times := RenewalTimes(w, steps, i);
    if times != [] {
      assert RateInv(Run(w, steps).tabs[i], Run(w, steps).now);
      SpacedSuffixCount(w.tabs[i].renewed, times);
      assert times[0] in times;
    }
  }

  lemma PieceSends(w: World, s: Step)
    requires Enabled(w, s) && Actor(s).Some? && !w.tabs[s.i].flight.Outstanding() && TabStep(w, s).flight.Outstanding()
    ensures Sends(w, s)
  {
  }

  /** Tab i takes over a token that another tab announced. */
  predicate Adopts(w: World, s: Step) {
    Enabled(w, s) && s.Deliver?
  }

  lemma RenewalSetsClock(w: World, s: Step)
    requires Renews(w, s) || Adopts(w, s)
    ensures s.i < |Next(w, s).tabs| && Next(w, s).tabs[s.i].lastRenewal == w.now == Next(w, s).now
  {
    OneTabChanges(w, s);
  }

  /** The renewal that a tab with a token remembers never becomes older than `since`. */
  lemma ClockKept(w: World, s: Step, i: nat, since: nat) returns (w': World)
    requires i < |w.tabs| && w.tabs[i].lastRenewal >= since && w.now >= since && Next(w, s).tabs[i].token.Some?
    requires |Next(w, s).tabs| == |w.tabs|
    ensures w' == Next(w, s) && w'.tabs[i].lastRenewal >= since && w'.now >= since
  {
    w' := Next(w, s);
    OneTabChanges(w, s);
    if Enabled(w, s) && Actor(s) == Some(i) {
      PieceKeepsClock(w, s);
    }
  }

  lemma PieceKeepsClock(w: World, s: Step)
    requires Enabled(w, s) && Actor(s).Some? && TabStep(w, s).token.Some?
    ensures TabStep(w, s).lastRenewal == w.tabs[s.i].lastRenewal || TabStep(w, s).lastRenewal == w.now
  {
    if Renews(w, s) {
      assert TabStep(w, s) == Resume(w.tabs[s.i], w.channels, w.now);
    } else {
      OtherPiecesRecord(w, s);
    }
  }

  lemma {:induction false} ClockKeptAlong(w: World, steps: seq<Step>, i: nat, since: nat)
    requires NeverEmptied(w, steps, i) && w.tabs[i].lastRenewal >= since && w.now >= since
    ensures var w' := Run(w, steps);
            && i < |w'.tabs| && w'.tabs[i].token.Some? && w'.tabs[i].lastRenewal >= since
    decreases |steps|
  {
    if steps != [] {
      OneTabChanges(w, steps[0]);
      var w' := ClockKept(w, steps[0], i, since);
      ClockKeptAlong(w', steps[1..], i, since);
    }
  }

  /** Tab i has no request out, and the step sends one. */
  ghost predicate Departs(w: World, s: Step, i: nat) {
    i < |w.tabs| == |Next(w, s).tabs| && !w.tabs[i].flight.Outstanding() && Next(w, s).tabs[i].flight.Outstanding()
  }

  lemma DepartsOutsideWindow(w: World, s: Step, i: nat)
    requires w.locks && Departs(w, s, i) && w.tabs[i].token.Some?
    ensures w.now - w.tabs[i].lastRenewal >= RENEWAL_WINDOW_MS
  {
    OneTabChanges(w, s);
    assert Enabled(w, s) && Actor(s) == Some(i);
    PieceSends(w, s);
  }

  /**
   * With Web Locks, after tab i renewed or adopted a renewal at any point of any
   * run, no request leaves it for 5 s, however the run goes on, as long as the
   * tab keeps a token.
   */
  lemma NoRequestInsideWindow(n: nat, channels: bool, revokes: bool, now: nat, before: seq<Step>, renewal: Step,
                              steps: seq<Step>, departure: Step, i: nat)
    requires var w := Run(Initial(n, true, channels, revokes, now), before);
             && RenewalOf(w, renewal, i) && NeverEmptied(Next(w, renewal), steps, i)
             && Departs(Run(Next(w, renewal), steps), departure, i)
    ensures var w := Run(Initial(n, true, channels, revokes, now), before);
            Run(Next(w, renewal), steps).now - w.now >= RENEWAL_WINDOW_MS
  {
    var w0 := Initial(n, true, channels, revokes, now);
    LockRun(w0, before);
    NoRequestAfter(Run(w0, before), renewal, steps, departure, i);
  }

  predicate RenewalOf(w: World, s: Step, i: nat) {
    (Renews(w, s) || Adopts(w, s)) && s.i == i
  }

  lemma NoRequestAfter(w: World, renewal: Step, steps: seq<Step>, departure: Step, i: nat)
    requires LockInv(w) && w.locks && RenewalOf(w, renewal, i)
    requires NeverEmptied(Next(w, renewal), steps, i) && Departs(Run(Next(w, renewal), steps), departure, i)
    ensures Run(Next(w, renewal), steps).now - w.now >= RENEWAL_WINDOW_MS
  {
    LockStep(w, renewal);
    RenewalSetsClock(w, renewal);
    LockRun(Next(w, renewal), steps);
    ClockKeptAlong(Next(w, renewal), steps, i, w.now);
    DepartsOutsideWindow(Run(Next(w, renewal), steps), departure, i);
  }
}
