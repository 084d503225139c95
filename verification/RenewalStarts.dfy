/**
 * What starts a renewal, what its outcome does, and when a tab renews by
 * itself (apps/portal/src/lib/api-client.ts:617-800).
 */
module RenewalStarts {
  import opened Options
  import opened SessionTab
  import opened RenewalProtocol
  import opened RenewalRuns

  // ---- Runs, step by step ---------------------------------------------------------------------

  lemma {:induction false} RunSnoc(w: World, steps: seq<Step>)
    requires steps != []
    ensures Run(w, steps) == Next(Run(w, steps[..|steps| - 1]), steps[|steps| - 1])
    decreases |steps|
  {
    if |steps| > 1 {
      RunSnoc(Next(w, steps[0]), steps[1..]);
      assert steps[1..][..|steps| - 2] == steps[..|steps| - 1][1..];
    }
  }

  lemma {:induction false} TabCount(w: World, steps: seq<Step>)
    ensures |Run(w, steps).tabs| == |w.tabs|
    decreases |steps|
  {
    if steps != [] {
      OneTabChanges(w, steps[0]);
      TabCount(Next(w, steps[0]), steps[1..]);
    }
  }

  // ---- What starts a renewal --------------------------------------------------------------------

  /**
   * The step that started the renewal of tab i that is under way after these
   * steps: the last one at which the tab left the idle state.
   */
  ghost function Starter(w: World, steps: seq<Step>, i: nat): Option<Step>
    decreases |steps|
  {
    if steps == [] then None
    else
      var front, last := steps[..|steps| - 1], steps[|steps| - 1];
      var was, now := Run(w, front), Run(w, steps);
      if i >= |was.tabs| || i >= |now.tabs| || now.tabs[i].flight.Idle? then None
      else if was.tabs[i].flight.Idle? then Some(last)
      else Starter(w, front, i)
  }

  /** The flight still knows what kind of renewal it is. */
  predicate HasSource(f: Flight) {
    !f.Idle? && !f.Settled?
  }

  /** The steps that can start a renewal of tab i, and the kind of renewal that they start. */
  predicate StartsAs(s: Step, i: nat, source: Source) {
    if source.Reactive? then s == Unauthorized(i) else s == TimerFires(i, true) || s == TabShown(i, true)
  }

  lemma PieceStarts(w: World, s: Step)
    requires Enabled(w, s) && Actor(s).Some? && Begins(s)
    ensures var f, f' := w.tabs[s.i].flight, TabStep(w, s).flight;
            && (f.Idle? && !f'.Idle? ==> f'.Waiting? && StartsAs(s, s.i, f'.source))
            && (!f.Idle? && HasSource(f') ==> HasSource(f) && f'.source == f.source)
  {
  }

  lemma OtherPiecesStartNothing(w: World, s: Step)
    requires Enabled(w, s) && Actor(s).Some? && !Begins(s)
    ensures var f, f' := w.tabs[s.i].flight, TabStep(w, s).flight;
            && (f.Idle? ==> f'.Idle?)
            && (HasSource(f') ==> HasSource(f) && f'.source == f.source)
  {
  }

  /** A renewal under way was started as its flight says, by that step and no other. */
  ghost predicate StartedAs(f: Flight, starter: Option<Step>, i: nat) {
    && (!f.Idle? <==> starter.Some?)
    && (HasSource(f) ==> starter.Some? && StartsAs(starter.value, i, f.source))
  }

  lemma StarterStep(w: World, steps: seq<Step>, i: nat)
    requires steps != [] && i < |w.tabs|
    requires |Run(w, steps).tabs| == |Run(w, steps[..|steps| - 1]).tabs| == |w.tabs|
    requires StartedAs(Run(w, steps[..|steps| - 1]).tabs[i].flight, Starter(w, steps[..|steps| - 1], i), i)
    ensures StartedAs(Run(w, steps).tabs[i].flight, Starter(w, steps, i), i)
  {
    var was, s := Run(w, steps[..|steps| - 1]), steps[|steps| - 1];
    RunSnoc(w, steps);
    OneTabChanges(was, s);
    if Enabled(was, s) && Actor(s) == Some(i) {
      if Begins(s) {
        PieceStarts(was, s);
      } else {
        OtherPiecesStartNothing(was, s);
      }
    }
  }

  lemma {:induction false} StartedAsAlong(w: World, steps: seq<Step>, i: nat)
    requires i < |w.tabs| && w.tabs[i].flight.Idle?
    ensures |Run(w, steps).tabs| == |w.tabs|
    ensures StartedAs(Run(w, steps).tabs[i].flight, Starter(w, steps, i), i)
    decreases |steps|
  {
    TabCount(w, steps);
    if steps != [] {
      StartedAsAlong(w, steps[..|steps| - 1], i);
      StarterStep(w, steps, i);
    }
  }

  /** In every reachable state the kind of the renewal under way is told by the step that started it. */
  lemma SourceIsStarter(n: nat, locks: bool, channels: bool, revokes: bool, now: nat, steps: seq<Step>, i: nat)
    requires i < n
    ensures var w0 := Initial(n, locks, channels, revokes, now);
            && i < |Run(w0, steps).tabs|
            && StartedAs(Run(w0, steps).tabs[i].flight, Starter(w0, steps, i), i)
  {
    StartedAsAlong(Initial(n, locks, channels, revokes, now), steps, i);
  }

  lemma {:induction false} StarterInRun(w: World, steps: seq<Step>, i: nat)
    ensures Starter(w, steps, i).Some? ==> Starter(w, steps, i).value in steps
    decreases |steps|
  {
    if steps != [] {
      var front := steps[..|steps| - 1];
      StarterInRun(w, front, i);
      assert steps == front + [steps[|steps| - 1]];
    }
  }

  // ---- What ends a session ------------------------------------------------------------------------

  /** Refused at last: the answer of a renewal of this kind has been read, and it says no. */
  predicate RefusedAs(f: Flight, source: Source) {
    f == Landed(source, Refused)
  }

  lemma PieceEndsSessionIff(w: World, s: Step)
    requires Enabled(w, s) && Actor(s).Some? && !w.tabs[s.i].terminal
    ensures TabStep(w, s).terminal <==> s.ResumeTab? && RefusedAs(w.tabs[s.i].flight, Reactive)
  {
    if TabStep(w, s).terminal {
      PieceEndsSession(w, s);
    }
  }

  lemma StepEndsSessionIff(w: World, s: Step, i: nat, starter: Option<Step>)
    requires |w.inbox| == |w.tabs| && i < |w.tabs| == |Next(w, s).tabs| && !w.tabs[i].terminal
    requires StartedAs(w.tabs[i].flight, starter, i)
    ensures Next(w, s).tabs[i].terminal <==>
              && s == ResumeTab(i) && w.tabs[i].flight.Landed? && w.tabs[i].flight.reply.Refused?
              && starter == Some(Unauthorized(i))
  {
    OneTabChanges(w, s);
    if Enabled(w, s) && Actor(s) == Some(i) {
      PieceEndsSessionIff(w, s);
    }
  }

  /** A step ends the session of a tab exactly when it reads the refusal of a renewal that a 401 started. */
  lemma TerminalIffStartedBy401(n: nat, locks: bool, channels: bool, revokes: bool, now: nat, steps: seq<Step>, s: Step,
                                i: nat)
    requires i < n
    ensures var w0 := Initial(n, locks, channels, revokes, now);
            var w := Run(w0, steps);
            && |w.tabs| == |Next(w, s).tabs| == n
            && (!w.tabs[i].terminal ==>
                  (Next(w, s).tabs[i].terminal <==>
                     && s == ResumeTab(i) && w.tabs[i].flight.Landed? && w.tabs[i].flight.reply.Refused?
                     && Starter(w0, steps, i) == Some(Unauthorized(i))))
  {
    var w0 := Initial(n, locks, channels, revokes, now);
    LockRun(w0, steps);
    LockStep(Run(w0, steps), s);
    SourceIsStarter(n, locks, channels, revokes, now, steps, i);
    if !Run(w0, steps).tabs[i].terminal {
      StepEndsSessionIff(Run(w0, steps), s, i, Starter(w0, steps, i));
    }
  }

  /** Whatever else happens, a tab that saw no 401 is never thrown out. */
  lemma {:induction false} NoTerminalWithout401(n: nat, locks: bool, channels: bool, revokes: bool, now: nat,
                                                steps: seq<Step>, i: nat)
    requires i < n && Unauthorized(i) !in steps
    ensures var w := Run(Initial(n, locks, channels, revokes, now), steps); i < |w.tabs| && !w.tabs[i].terminal
    decreases |steps|
  {
    if steps != [] {
      var w0 := Initial(n, locks, channels, revokes, now);
      var front, last := steps[..|steps| - 1], steps[|steps| - 1];
      NoTerminalWithout401(n, locks, channels, revokes, now, front, i);
      TerminalIffStartedBy401(n, locks, channels, revokes, now, front, last, i);
      StarterInRun(w0, front, i);
      RunSnoc(w0, steps);
    }
  }

  // ---- When a tab renews by itself ------------------------------------------------------------------

  /** Focus starts a renewal exactly inside the 90 s before the token ends. */
  lemma FocusRenewsIff(w: World, i: nat, tenantKnown: bool)
    requires Enabled(w, TabShown(i, tenantKnown))
    ensures var t, t' := w.tabs[i], Next(w, TabShown(i, tenantKnown)).tabs[i];
            if && tenantKnown && !t.terminal && t.flight.Idle?
               && t.token.Some? && t.token.value.exp.Some? && t.token.value.exp.value != 0
               && t.token.value.exp.value * 1000 - w.now < 90_000
            then t' == t.(flight := Waiting(Proactive)) else t' == t
  {
  }

  /** The timer starts a renewal exactly for a tab that may renew, and stands no longer. */
  lemma TimerRenewsIff(w: World, i: nat, tenantKnown: bool)
    requires Enabled(w, TimerFires(i, tenantKnown))
    ensures var t, t' := w.tabs[i], Next(w, TimerFires(i, tenantKnown)).tabs[i];
            if tenantKnown && !t.terminal && t.flight.Idle?
            then t' == t.(timer := None, flight := Waiting(Proactive)) else t' == t.(timer := None)
  {
  }

  /** A live timer stands 90 s before the token ends, or at the moment at which it was set when that was later. */
  ghost predicate TimerStands(t: Tab, now: int) {
    t.timer.Some? ==>
      && t.token.Some? && t.token.value.exp.Some? && t.token.value.exp.value != 0
      && var due := t.token.value.exp.value * 1000 - 90_000;
         t.timer.value == due || due < t.timer.value <= now
  }

  lemma PersistSetsTimer(t: Tab, token: Option<Access>, now: int)
    ensures var t' := Persist(t, token, now);
            TimerStands(t', now) && (token.None? ==> t'.timer.None?)
            && (token.Some? && token.value.exp.Some? && token.value.exp.value != 0 ==>
                  && t'.listeners
                  && t'.timer == Some(if token.value.exp.value * 1000 - 90_000 > now
                                      then token.value.exp.value * 1000 - 90_000 else now))
  {
  }

  lemma StoringSetsTimer(w: World, s: Step)
    requires Enabled(w, s) && Actor(s).Some? && Stores(s)
    ensures TimerStands(TabStep(w, s), w.now)
  {
    var t := w.tabs[s.i];
    match s
    case ResumeTab(_) => ResumeSetsTimer(t, w.channels, w.now);
    case Deliver(_) => PersistSetsTimer(t.(lastRenewal := w.now), Some(w.inbox[s.i][0]), w.now);
    case SetToken(_, token) => PersistSetsTimer(t, token, w.now);
    case LocalLogout(_) => PersistSetsTimer(t, None, w.now);
  }

  lemma ResumeSetsTimer(t: Tab, channels: bool, now: int)
    requires t.flight.Landed?
    ensures TimerStands(Resume(t, channels, now), now)
  {
    PersistSetsTimer(t, if t.flight.reply.Granted? then Some(t.flight.reply.access) else None, now);
  }

  lemma OtherPiecesKeepTimer(w: World, s: Step)
    requires Enabled(w, s) && Actor(s).Some? && !Stores(s)
    ensures var t, t' := w.tabs[s.i], TabStep(w, s);
            t'.timer.None? || (t'.timer == t.timer && t'.token == t.token)
  {
  }

  ghost predicate TimersStand(w: World) {
    forall i :: 0 <= i < |w.tabs| ==> TimerStands(w.tabs[i], w.now)
  }

  lemma PieceKeepsTimer(w: World, s: Step)
    requires Enabled(w, s) && Actor(s).Some? && TimerStands(w.tabs[s.i], w.now)
    ensures TimerStands(TabStep(w, s), w.now)
  {
    if Stores(s) {
      StoringSetsTimer(w, s);
    } else {
      OtherPiecesKeepTimer(w, s);
    }
  }

  lemma TimersStep(w: World, s: Step)
    requires TimersStand(w)
    ensures TimersStand(Next(w, s))
  {
    OneTabChanges(w, s);
    TimeGoesOn(w, s);
    if Enabled(w, s) && Actor(s).Some? {
      PieceKeepsTimer(w, s);
    }
  }

  lemma {:induction false} TimersRun(w: World, steps: seq<Step>)
    requires TimersStand(w)
    ensures TimersStand(Run(w, steps))
    decreases |steps|
  {
    if steps != [] {
      TimersStep(w, steps[0]);
      TimersRun(Next(w, steps[0]), steps[1..]);
    }
  }

  /** In every reachable state a live timer stands where the token says. */
  lemma LiveTimerStands(n: nat, locks: bool, channels: bool, revokes: bool, now: nat, steps: seq<Step>, i: nat)
    requires i < |Run(Initial(n, locks, channels, revokes, now), steps).tabs|
    ensures var w := Run(Initial(n, locks, channels, revokes, now), steps); TimerStands(w.tabs[i], w.now)
  {
    TimersRun(Initial(n, locks, channels, revokes, now), steps);
  }

  // ---- What an answer does ----------------------------------------------------------------------------

  /** A grant leaves the tab with its token and a live session; a refusal leaves it without a token. */
  lemma AnswerDecidesToken(w: World, i: nat)
    requires Enabled(w, ResumeTab(i))
    ensures var t, t' := w.tabs[i], Next(w, ResumeTab(i)).tabs[i];
            match t.flight.reply
            case Granted(access, _) =>
              && t'.token == Some(access) && !t'.terminal && t'.lastRenewal == w.now
              && t'.channel == (t.channel || w.channels)
            case Refused => t'.token.None? && (t.flight.source.Proactive? && !t.terminal ==> !t'.terminal)
  {
  }

  /** A grant reaches the channel of every other tab that listens, behind the messages already there. */
  lemma GrantIsAnnounced(w: World, i: nat, j: nat)
    requires Enabled(w, ResumeTab(i)) && w.tabs[i].flight.reply.Granted? && w.channels && j < |w.tabs|
    ensures var access := w.tabs[i].flight.reply.access;
            && j < |Next(w, ResumeTab(i)).inbox|
            && Next(w, ResumeTab(i)).inbox[j]
               == (if j != i && w.tabs[j].channel then w.inbox[j] + [access] else w.inbox[j])
  {
  }

  /** A tab adopts the announced tokens in their order. */
  lemma AnnouncedIsAdopted(w: World, j: nat)
    requires Enabled(w, Deliver(j))
    ensures var w' := Next(w, Deliver(j));
            && w'.tabs[j].token == Some(w.inbox[j][0]) && !w'.tabs[j].terminal && w'.tabs[j].lastRenewal == w.now
            && w.inbox[j] == [w.inbox[j][0]] + w'.inbox[j]
  {
  }

  /** Some step of the run brought this token into the browser: a login or a grant of the server. */
  ghost predicate Issued(steps: seq<Step>, a: Access) {
    exists s :: s in steps && ((s.SetToken? && s.token == Some(a)) || (s.Serve? && s.verdict == Accept(a)))
  }

  ghost predicate FlightIssued(steps: seq<Step>, f: Flight) {
    (f.Answered? || f.Landed?) && f.reply.Granted? ==> Issued(steps, f.reply.access)
  }

  ghost predicate TokensIssued(w: World, steps: seq<Step>) {
    && |w.inbox| == |w.tabs|
    && (forall i :: 0 <= i < |w.tabs| && w.tabs[i].token.Some? ==> Issued(steps, w.tabs[i].token.value))
    && (forall i :: 0 <= i < |w.tabs| ==> FlightIssued(steps, w.tabs[i].flight))
    && (forall i, a :: 0 <= i < |w.inbox| && a in w.inbox[i] ==> Issued(steps, a))
  }

  lemma IssuedLater(steps: seq<Step>, s: Step, a: Access)
    requires Issued(steps, a)
    ensures Issued(steps + [s], a)
  {
    var r :| r in steps && ((r.SetToken? && r.token == Some(a)) || (r.Serve? && r.verdict == Accept(a)));
    assert r in steps + [s];
  }

  lemma IssuedNow(steps: seq<Step>, s: Step, a: Access)
    requires (s.SetToken? && s.token == Some(a)) || (s.Serve? && s.verdict == Accept(a))
    ensures Issued(steps + [s], a)
  {
    assert s in steps + [s];
  }

  lemma AllIssuedLater(w: World, steps: seq<Step>, s: Step)
    requires TokensIssued(w, steps)
    ensures TokensIssued(w, steps + [s])
  {
    forall a | Issued(steps, a) ensures Issued(steps + [s], a) {
      IssuedLater(steps, s, a);
    }
  }

  lemma UnstoredToken(w: World, s: Step)
    requires Enabled(w, s) && Actor(s).Some? && !Stores(s)
    ensures TabStep(w, s).token == w.tabs[s.i].token || TabStep(w, s).token.None?
  {
    UnstoredRecord(w, s);
  }

  lemma StoredToken(w: World, s: Step)
    requires Enabled(w, s) && Actor(s).Some? && Stores(s)
    ensures TabStep(w, s).token ==
              match s
              case SetToken(_, token) => token
              case Deliver(i) => Some(w.inbox[i][0])
              case ResumeTab(i) =>
                if w.tabs[i].flight.reply.Granted? then Some(w.tabs[i].flight.reply.access) else None
              case _ => None
  {
  }

  /** The steps that bring an answer nearer. */
  predicate Answers(s: Step) {
    s.Serve? || s.Land?
  }

  lemma AnswerMoves(w: World, s: Step)
    requires Enabled(w, s) && Answers(s)
    ensures var f, f' := w.tabs[s.i].flight, TabStep(w, s).flight;
            (f'.Answered? || f'.Landed?) && f'.reply.Granted? ==>
              || (f.Answered? && f.reply == f'.reply)
              || (s.Serve? && s.verdict == Accept(f'.reply.access))
  {
  }

  lemma NoAnswerAppears(w: World, s: Step)
    requires Enabled(w, s) && Actor(s).Some? && !Answers(s)
    ensures var f, f' := w.tabs[s.i].flight, TabStep(w, s).flight;
            f'.Answered? || f'.Landed? ==> f' == f
  {
  }

  lemma PieceInbox(w: World, s: Step)
    requires Enabled(w, s) && Actor(s).Some? && |w.inbox| == |w.tabs|
    ensures |Next(w, s).inbox| == |w.inbox|
    ensures forall j, a :: 0 <= j < |w.inbox| && a in Next(w, s).inbox[j] ==>
              || a in w.inbox[j]
              || (s.ResumeTab? && w.tabs[s.i].flight.reply.Granted? && a == w.tabs[s.i].flight.reply.access)
  {
    if !Messages(s) {
      MessagesKept(w, s);
    }
  }

  lemma IssuedStep(w: World, steps: seq<Step>, s: Step)
    requires TokensIssued(w, steps)
    ensures TokensIssued(Next(w, s), steps + [s])
  {
    AllIssuedLater(w, steps, s);
    OneTabChanges(w, s);
    if Enabled(w, s) && Actor(s).Some? {
      if Stores(s) { StoredToken(w, s); } else { UnstoredToken(w, s); }
      if Answers(s) { AnswerMoves(w, s); } else { NoAnswerAppears(w, s); }
      PieceInbox(w, s);
      NewToken(w, steps + [s], s);
      if s.SetToken? && s.token.Some? { IssuedNow(steps, s, s.token.value); }
      if s.Serve? && s.verdict.Accept? { IssuedNow(steps, s, s.verdict.access); }
    } else {
      MessagesKeptOutside(w, s);
    }
  }

  lemma MessagesKeptOutside(w: World, s: Step)
    requires !Enabled(w, s) || Actor(s).None?
    ensures Next(w, s).inbox == w.inbox
  {
  }

  /** What a tab takes from its channel or from its answer was issued. */
  lemma NewToken(w: World, steps: seq<Step>, s: Step)
    requires TokensIssued(w, steps) && Enabled(w, s) && Actor(s).Some?
    ensures s.Deliver? ==> Issued(steps, w.inbox[s.i][0])
    ensures s.ResumeTab? && w.tabs[s.i].flight.reply.Granted? ==> Issued(steps, w.tabs[s.i].flight.reply.access)
  {
    assert FlightIssued(steps, w.tabs[s.i].flight);
  }

  lemma {:induction false} IssuedAlong(w: World, steps: seq<Step>)
    requires TokensIssued(w, [])
    ensures TokensIssued(Run(w, steps), steps)
    decreases |steps|
  {
    if steps != [] {
      var front, last := steps[..|steps| - 1], steps[|steps| - 1];
      IssuedAlong(w, front);
      RunSnoc(w, steps);
      IssuedStep(Run(w, front), front, last);
      assert front + [last] == steps;
    }
  }

  /** In every reachable state the token of a tab is one that a login set or the server granted. */
  lemma TokenWasIssued(n: nat, locks: bool, channels: bool, revokes: bool, now: nat, steps: seq<Step>, i: nat)
    requires i < |Run(Initial(n, locks, channels, revokes, now), steps).tabs|
    ensures var t := Run(Initial(n, locks, channels, revokes, now), steps).tabs[i];
            t.token.Some? ==> Issued(steps, t.token.value)
  {
    IssuedAlong(Initial(n, locks, channels, revokes, now), steps);
  }
}
