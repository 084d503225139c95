/**
 * Where the guarantee of the renewal protocol ends: reuse detection stays
 * silent exactly when requests are serialised and no answer is lost
 * (apps/portal/src/lib/api-client.ts:610-693).
 */
module RenewalLimits {
  import opened Options
  import opened SessionTab
  import opened RenewalProtocol

  const SOME_ACCESS := Access("access", None)

  const FIRST_COOKIE := Cookie(0, 0)

  // ---- Single steps, as the start of a run ------------------------------------------------------

  lemma FirstOf(w: World, s: Step, rest: seq<Step>)
    ensures Run(w, [s] + rest) == Run(Next(w, s), rest)
  {
    assert ([s] + rest)[1..] == rest;
  }

  lemma LogsIn(n: nat, locks: bool, channels: bool, revokes: bool, now: nat, rest: seq<Step>) returns (w': World)
    ensures var w := Initial(n, locks, channels, revokes, now);
            && Run(w, [ServerLogin] + rest) == Run(w', rest)
            && w' == w.(families := [Family(0, Live, false)], jar := Some(FIRST_COOKIE))
  {
    var w := Initial(n, locks, channels, revokes, now);
    FirstOf(w, ServerLogin, rest);
    w' := Next(w, ServerLogin);
  }

  /** Tab i of w in another flight. */
  function Moved(w: World, i: nat, flight: Flight): seq<Tab>
    requires i < |w.tabs|
  {
    w.tabs[i := w.tabs[i].(flight := flight)]
  }

  predicate Quiet(w: World, i: nat) {
    |w.inbox| == |w.tabs| && i < |w.tabs| && !w.tabs[i].terminal && w.tabs[i].token.None?
  }

  lemma Asks(w: World, i: nat, rest: seq<Step>) returns (w': World)
    requires Quiet(w, i) && w.tabs[i].flight.Idle?
    ensures Run(w, [Unauthorized(i)] + rest) == Run(w', rest)
    ensures w' == w.(tabs := Moved(w, i, Waiting(Reactive)))
  {
    FirstOf(w, Unauthorized(i), rest);
    w' := Next(w, Unauthorized(i));
  }

  lemma Enters(w: World, i: nat, rest: seq<Step>) returns (w': World)
    requires Quiet(w, i) && w.tabs[i].flight.Waiting? && w.holder.None?
    ensures Run(w, [EnterLock(i)] + rest) == Run(w', rest)
    ensures w' == w.(tabs := w.tabs[i := w.tabs[i].(flight := Sent(w.tabs[i].flight.source, w.jar), sentAt := w.now)],
                     holder := if w.locks then Some(i) else None)
  {
    FirstOf(w, EnterLock(i), rest);
    w' := Next(w, EnterLock(i));
  }

  /** The server rotates for the head of the family, and takes anything else for reuse. */
  lemma IsServed(w: World, i: nat, rest: seq<Step>) returns (w': World)
    requires Quiet(w, i) && w.tabs[i].flight.Sent? && w.tabs[i].flight.presented == Some(FIRST_COOKIE)
    requires |w.families| == 1 && w.families[0].state.Live?
    ensures Run(w, [Serve(i, Accept(SOME_ACCESS))] + rest) == Run(w', rest)
    ensures var f, source := w.families[0], w.tabs[i].flight.source;
            w' == if f.head == 0
                  then w.(tabs := Moved(w, i, Answered(source, Granted(SOME_ACCESS, Cookie(0, 1)))),
                          families := [f.(head := 1)])
                  else w.(tabs := Moved(w, i, Answered(source, Refused)),
                          families := [Family(f.head, if w.revokes then Burned else Live, true)])
  {
    var s := Serve(i, Accept(SOME_ACCESS));
    FirstOf(w, s, rest);
    w' := Next(w, s);
  }

  lemma Loses(w: World, i: nat, rest: seq<Step>) returns (w': World)
    requires Quiet(w, i) && (w.holder.None? || w.holder == Some(i))
    requires w.tabs[i].flight.Sent? || (w.tabs[i].flight.Answered? && w.tabs[i].flight.reply.Granted?)
    ensures Run(w, [LoseAnswer(i)] + rest) == Run(w', rest)
    ensures w' == w.(tabs := Moved(w, i, Settled), holder := None,
                     orphans := if w.tabs[i].flight.Sent? then w.orphans + [w.tabs[i].flight.presented] else w.orphans)
  {
    FirstOf(w, LoseAnswer(i), rest);
    w' := Next(w, LoseAnswer(i));
  }

  lemma OrphanArrives(w: World, rest: seq<Step>) returns (w': World)
    requires w.orphans == [Some(FIRST_COOKIE)] && w.families == [Family(0, Live, false)]
    ensures Run(w, [ServeOrphan(0, Accept(SOME_ACCESS))] + rest) == Run(w', rest)
    ensures w' == w.(families := [Family(1, Live, false)], orphans := [])
  {
    var s := ServeOrphan(0, Accept(SOME_ACCESS));
    FirstOf(w, s, rest);
    w' := Next(w, s);
  }

  lemma Finishes(w: World, i: nat, rest: seq<Step>) returns (w': World)
    requires Quiet(w, i) && w.tabs[i].flight.Settled?
    ensures Run(w, [Finish(i)] + rest) == Run(w', rest)
    ensures w' == w.(tabs := Moved(w, i, Idle))
  {
    FirstOf(w, Finish(i), rest);
    w' := Next(w, Finish(i));
  }

  // ---- Three runs that end in reuse detection -----------------------------------------------------

  /** Tab i is refused for reuse of the first cookie, whose family is revoked if that lasts. */
  ghost predicate Detected(w: World, i: nat) {
    && |w.families| == 1 && w.families[0].reused && (w.revokes ==> w.families[0].state.Burned?)
    && i < |w.tabs| && w.tabs[i].flight == Answered(Reactive, Refused)
  }

  function AskAgain(i: nat): seq<Step> {
    [Unauthorized(i)] + ([EnterLock(i)] + ([Serve(i, Accept(SOME_ACCESS))] + []))
  }

  /** The cookie in the jar is spent; the tab asks once more. */
  lemma AskingAgainIsReuse(w: World, i: nat)
    requires Quiet(w, i) && w.tabs[i].flight.Idle? && w.holder.None? && w.jar == Some(FIRST_COOKIE)
    requires w.families == [Family(1, Live, false)]
    ensures Detected(Run(w, AskAgain(i)), i)
  {
    var w1 := Asks(w, i, [EnterLock(i)] + ([Serve(i, Accept(SOME_ACCESS))] + []));
    var w2 := Enters(w1, i, [Serve(i, Accept(SOME_ACCESS))] + []);
    var w3 := IsServed(w2, i, []);
  }

  /** One tab; the server rotates and the answer is lost. */
  function LostRotation(): seq<Step> {
    [ServerLogin] + ([Unauthorized(0)] + ([EnterLock(0)] + ([Serve(0, Accept(SOME_ACCESS))] +
      ([LoseAnswer(0)] + ([Finish(0)] + AskAgain(0))))))
  }

  /** One tab; it gives up first and the request reaches the server late. */
  function LateRequest(): seq<Step> {
    [ServerLogin] + ([Unauthorized(0)] + ([EnterLock(0)] + ([LoseAnswer(0)] +
      ([ServeOrphan(0, Accept(SOME_ACCESS))] + ([Finish(0)] + AskAgain(0))))))
  }

  /** Two tabs without Web Locks; every answer is delivered. */
  function Race(): seq<Step> {
    [ServerLogin] + ([Unauthorized(0)] + ([Unauthorized(1)] + ([EnterLock(0)] + ([EnterLock(1)] +
      ([Serve(0, Accept(SOME_ACCESS))] + ([Serve(1, Accept(SOME_ACCESS))] + []))))))
  }

  lemma FirstRequest(n: nat, locks: bool, channels: bool, revokes: bool, now: nat, rest: seq<Step>) returns (w: World)
    requires n > 0
    ensures Run(Initial(n, locks, channels, revokes, now),
                [ServerLogin] + ([Unauthorized(0)] + ([EnterLock(0)] + rest))) == Run(w, rest)
    ensures Quiet(w, 0) && w.tabs[0].flight == Sent(Reactive, Some(FIRST_COOKIE))
    ensures w.jar == Some(FIRST_COOKIE) && w.families == [Family(0, Live, false)] && w.orphans == []
    ensures w.revokes == revokes && (w.holder.None? || w.holder == Some(0))
  {
    var w1 := LogsIn(n, locks, channels, revokes, now, [Unauthorized(0)] + ([EnterLock(0)] + rest));
    var w2 := Asks(w1, 0, [EnterLock(0)] + rest);
    w := Enters(w2, 0, rest);
  }

  /**
   * From the start, in any number of tabs, with or without Web Locks: once the
   * answer of a rotation is lost the next request is taken for reuse.
   */
  lemma LostRotationDetected(n: nat, locks: bool, channels: bool, revokes: bool, now: nat)
    requires n > 0
    ensures Detected(Run(Initial(n, locks, channels, revokes, now), LostRotation()), 0)
  {
    var again := AskAgain(0);
    var w3 := FirstRequest(n, locks, channels, revokes, now,
                           [Serve(0, Accept(SOME_ACCESS))] + ([LoseAnswer(0)] + ([Finish(0)] + again)));
    var w4 := IsServed(w3, 0, [LoseAnswer(0)] + ([Finish(0)] + again));
    var w5 := Loses(w4, 0, [Finish(0)] + again);
    var w6 := Finishes(w5, 0, again);
    AskingAgainIsReuse(w6, 0);
  }

  /** The same when the request itself was given up and reaches the server late. */
  lemma LateRequestDetected(n: nat, locks: bool, channels: bool, revokes: bool, now: nat)
    requires n > 0
    ensures Detected(Run(Initial(n, locks, channels, revokes, now), LateRequest()), 0)
  {
    var again := AskAgain(0);
    var w3 := FirstRequest(n, locks, channels, revokes, now,
                           [LoseAnswer(0)] + ([ServeOrphan(0, Accept(SOME_ACCESS))] + ([Finish(0)] + again)));
    var w4 := Loses(w3, 0, [ServeOrphan(0, Accept(SOME_ACCESS))] + ([Finish(0)] + again));
    var w5 := OrphanArrives(w4, [Finish(0)] + again);
    var w6 := Finishes(w5, 0, again);
    AskingAgainIsReuse(w6, 0);
  }

  lemma BothAsk(n: nat, channels: bool, revokes: bool, now: nat, rest: seq<Step>) returns (w: World)
    requires n >= 2
    ensures Run(Initial(n, false, channels, revokes, now),
                [ServerLogin] + ([Unauthorized(0)] + ([Unauthorized(1)] + rest))) == Run(w, rest)
    ensures Quiet(w, 0) && Quiet(w, 1) && !w.locks && w.holder.None? && w.revokes == revokes
    ensures w.jar == Some(FIRST_COOKIE) && w.families == [Family(0, Live, false)]
    ensures w.tabs[0].flight == w.tabs[1].flight == Waiting(Reactive)
  {
    var w1 := LogsIn(n, false, channels, revokes, now, [Unauthorized(0)] + ([Unauthorized(1)] + rest));
    var w2 := Asks(w1, 0, [Unauthorized(1)] + rest);
    w := Asks(w2, 1, rest);
  }

  /** Without Web Locks two tabs present the same cookie, and the second is refused for reuse. */
  lemma RaceIsDetected(n: nat, channels: bool, revokes: bool, now: nat)
    requires n >= 2
    ensures Detected(Run(Initial(n, false, channels, revokes, now), Race()), 1)
  {
    var serve1 := [Serve(1, Accept(SOME_ACCESS))] + [];
    var serves := [Serve(0, Accept(SOME_ACCESS))] + serve1;
    var w3 := BothAsk(n, channels, revokes, now, [EnterLock(0)] + ([EnterLock(1)] + serves));
    var w4 := Enters(w3, 0, [EnterLock(1)] + serves);
    var w5 := Enters(w4, 1, serves);
    var w6 := IsServed(w5, 0, serve1);
    var w7 := IsServed(w6, 1, []);
  }

  lemma RaceLosesNothing()
    ensures NoLostAnswer(Race())
  {
  }

  // ---- Exactly where it ends ------------------------------------------------------------------------

  /** In every run in which no answer is lost, reuse detection stays silent. */
  ghost predicate AlwaysSilent(n: nat, locks: bool, channels: bool, revokes: bool, now: nat) {
    forall steps :: NoLostAnswer(steps) ==> Silent(Run(Initial(n, locks, channels, revokes, now), steps))
  }

  /** As long as no answer is lost: exactly with Web Locks, or in at most one tab. */
  lemma SilentIffSerialised(n: nat, locks: bool, channels: bool, revokes: bool, now: nat)
    ensures AlwaysSilent(n, locks, channels, revokes, now) <==> locks || n <= 1
  {
    if locks || n <= 1 {
      forall steps | NoLostAnswer(steps) ensures Silent(Run(Initial(n, locks, channels, revokes, now), steps)) {
        NeverRevoked(n, locks, channels, revokes, now, steps);
      }
    } else {
      RaceIsDetected(n, channels, revokes, now);
      RaceLosesNothing();
    }
  }

  /** Whatever answers are lost: only where no tab is open. */
  lemma SilentWhateverIsLostIffNoTab(n: nat, locks: bool, channels: bool, revokes: bool, now: nat)
    ensures (forall steps :: Silent(Run(Initial(n, locks, channels, revokes, now), steps))) <==> n == 0
  {
    var w := Initial(n, locks, channels, revokes, now);
    if n == 0 {
      forall steps ensures Silent(Run(w, steps)) {
        CookieRun(w, steps);
      }
    } else {
      LostRotationDetected(n, locks, channels, revokes, now);
      assert !Silent(Run(w, LostRotation()));
    }
  }
}
