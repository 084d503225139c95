/**
 * A renewal that nothing disturbs, from the 401 to the new token, and when
 * one leaves the browser at all
 * (apps/portal/src/lib/api-client.ts:617-745, apps/api/src/modules/auth/auth.service.ts:558-635).
 */
module RenewalOutcome {
  import opened Options
  import opened SessionTab
  import opened RenewalProtocol

  /** A 401 starts a renewal exactly in a tab without one under way and without a terminal error. */
  lemma UnauthorizedStartsIff(w: World, i: nat)
    requires Enabled(w, Unauthorized(i))
    ensures var t, t' := w.tabs[i], Next(w, Unauthorized(i)).tabs[i];
            if t.flight.Idle? && !t.terminal then t' == t.(flight := Waiting(Reactive)) else t' == t
  {
  }

  /**
   * The request leaves, with the cookie of the shared jar, unless the tab holds
   * the lock and a token that is less than 5 s old; then the renewal is over.
   */
  lemma RequestLeavesIff(w: World, i: nat)
    requires Enabled(w, EnterLock(i))
    ensures var t, w' := w.tabs[i], Next(w, EnterLock(i));
            var recent := w.locks && t.token.Some? && w.now - t.lastRenewal < 5_000;
            && w'.tabs[i] == (if recent then t.(flight := Settled)
                              else t.(flight := Sent(t.flight.source, w.jar), sentAt := w.now))
            && w'.holder == (if w.locks && !recent then Some(i) else w.holder)
  {
  }

  /** The server would grant this cookie: its family is live and it is the family's newest token. */
  predicate Honoured(w: World, cookie: Option<Cookie>) {
    && cookie.Some? && cookie.value.family < |w.families|
    && w.families[cookie.value.family].state.Live? && w.families[cookie.value.family].head == cookie.value.index
  }

  /** A token of a live family that has been replaced is a reuse. */
  predicate Reuses(w: World, cookie: Option<Cookie>) {
    && cookie.Some? && cookie.value.family < |w.families|
    && w.families[cookie.value.family].state.Live? && w.families[cookie.value.family].head != cookie.value.index
  }

  /**
   * The server grants exactly what it accepts and honours, with the next token of
   * the family. A reuse is remembered and, where the revocation lasts, burns the
   * family; any other refusal leaves all families alone.
   */
  lemma ServerGrantsIff(w: World, i: nat, verdict: Verdict)
    requires Enabled(w, Serve(i, verdict))
    ensures var c, w' := w.tabs[i].flight.presented, Next(w, Serve(i, verdict));
            && w'.tabs[i].flight.Answered?
            && (w'.tabs[i].flight.reply.Granted? <==> verdict.Accept? && Honoured(w, c))
            && (w'.tabs[i].flight.reply.Granted? ==>
                  && w'.tabs[i].flight.reply == Granted(verdict.access, Cookie(c.value.family, c.value.index + 1))
                  && w'.families == w.families[c.value.family := Family(c.value.index + 1, Live,
                                                                        w.families[c.value.family].reused)])
            && (verdict.Accept? && Reuses(w, c) ==>
                  w'.families == w.families[c.value.family := Family(w.families[c.value.family].head,
                                                                     if w.revokes then Burned else Live, true)])
            && (verdict.Refuse? || !(Honoured(w, c) || Reuses(w, c)) ==> w'.families == w.families)
  {
  }

  /** From the 401 on, one tab alone. */
  function Renewal(i: nat, access: Access): seq<Step> {
    [Unauthorized(i), EnterLock(i), Serve(i, Accept(access)), Land(i), ResumeTab(i), Finish(i)]
  }

  ghost predicate MayRenew(w: World, i: nat) {
    && |w.inbox| == |w.tabs| && i < |w.tabs| && w.tabs[i].flight.Idle? && !w.tabs[i].terminal
    && w.holder.None? && !(w.locks && MayReuse(w.tabs[i], w.now)) && Honoured(w, w.jar)
  }

  lemma RequestOut(w: World, i: nat)
    requires MayRenew(w, i)
    ensures Next(Next(w, Unauthorized(i)), EnterLock(i))
            == w.(tabs := w.tabs[i := w.tabs[i].(flight := Sent(Reactive, w.jar), sentAt := w.now)],
                  holder := if w.locks then Some(i) else None)
  {
    var w1 := Next(w, Unauthorized(i));
    assert w1 == w.(tabs := w.tabs[i := w.tabs[i].(flight := Waiting(Reactive))]);
  }

  lemma AnswerIn(w: World, i: nat, access: Access)
    requires |w.inbox| == |w.tabs| && i < |w.tabs| && w.tabs[i].flight == Sent(Reactive, w.jar) && Honoured(w, w.jar)
    ensures var c := w.jar.value;
            var next := Cookie(c.family, c.index + 1);
            Next(Next(w, Serve(i, Accept(access))), Land(i))
            == w.(tabs := w.tabs[i := w.tabs[i].(flight := Landed(Reactive, Granted(access, next)))],
                  jar := Some(next),
                  families := w.families[c.family := w.families[c.family].(head := c.index + 1)])
  {
    var c := w.jar.value;
    var answered := w.tabs[i].(flight := Answered(Reactive, Granted(access, Cookie(c.family, c.index + 1))));
    assert Next(w, Serve(i, Accept(access)))
        == w.(tabs := w.tabs[i := answered],
              families := w.families[c.family := w.families[c.family].(head := c.index + 1)]);
  }

  /** The world in which the tab has the granted answer. */
  ghost predicate AnswerHeld(w: World, i: nat, access: Access, w': World)
    requires i < |w.tabs| && Honoured(w, w.jar)
  {
    var c := w.jar.value;
    && |w'.inbox| == |w'.tabs| == |w.tabs| && w'.now == w.now && w'.holder in {None, Some(i)}
    && w'.tabs[i].flight == Landed(Reactive, Granted(access, Cookie(c.family, c.index + 1)))
    && (forall j :: 0 <= j < |w.tabs| && j != i ==> w'.tabs[j] == w.tabs[j])
    && w'.jar == Some(Cookie(c.family, c.index + 1)) && Honoured(w', w'.jar)
  }

  lemma AnswerReached(w: World, i: nat, access: Access)
    requires MayRenew(w, i)
    ensures var w2 := Next(Next(w, Unauthorized(i)), EnterLock(i));
            AnswerHeld(w, i, access, Next(Next(w2, Serve(i, Accept(access))), Land(i)))
  {
    RequestOut(w, i);
    AnswerIn(Next(Next(w, Unauthorized(i)), EnterLock(i)), i, access);
  }

  lemma AnswerResumed(w: World, i: nat, access: Access, next: Cookie)
    requires |w.inbox| == |w.tabs| && i < |w.tabs| && w.tabs[i].flight == Landed(Reactive, Granted(access, next))
    ensures var t, w' := w.tabs[i], Next(w, ResumeTab(i));
            && w'.tabs == w.tabs[i := Resume(t, w.channels, w.now)] && |w'.inbox| == |w'.tabs|
            && w'.jar == w.jar && w'.families == w.families && w'.now == w.now
            && (w.holder in {None, Some(i)} ==> w'.holder.None?)
  {
  }

  lemma TokenStored(w: World, i: nat, access: Access, next: Cookie)
    requires |w.inbox| == |w.tabs| && i < |w.tabs| && w.tabs[i].flight == Landed(Reactive, Granted(access, next))
    ensures var t, w' := w.tabs[i], Next(Next(w, ResumeTab(i)), Finish(i));
            && |w'.tabs| == |w.tabs| && w'.jar == w.jar && w'.families == w.families
            && (w.holder in {None, Some(i)} ==> w'.holder.None?)
            && w'.tabs[i].token == Some(access) && !w'.tabs[i].terminal && w'.tabs[i].flight.Idle?
            && w'.tabs[i].lastRenewal == w.now
            && forall j :: 0 <= j < |w.tabs| && j != i ==> w'.tabs[j] == w.tabs[j]
  {
    AnswerResumed(w, i, access, next);
    var resumed := Next(w, ResumeTab(i));
    assert Next(resumed, Finish(i)) == resumed.(tabs := resumed.tabs[i := resumed.tabs[i].(flight := Idle)]);
  }

  /**
   * Left alone, a renewal succeeds: the tab holds the granted token and is idle
   * again, the jar holds the family's newest cookie, so that the next renewal may
   * follow, and no other tab has changed.
   */
  lemma RenewalSucceeds(w: World, i: nat, access: Access)
    requires MayRenew(w, i)
    ensures var w' := Run(w, Renewal(i, access));
            && |w'.tabs| == |w.tabs| && w'.holder.None? && Honoured(w', w'.jar)
            && w'.jar == Some(Cookie(w.jar.value.family, w.jar.value.index + 1))
            && w'.tabs[i].token == Some(access) && !w'.tabs[i].terminal && w'.tabs[i].flight.Idle?
            && w'.tabs[i].lastRenewal == w.now
            && forall j :: 0 <= j < |w.tabs| && j != i ==> w'.tabs[j] == w.tabs[j]
  {
    var w2 := Next(Next(w, Unauthorized(i)), EnterLock(i));
    AnswerReached(w, i, access);
    TokenStored(Next(Next(w2, Serve(i, Accept(access))), Land(i)), i, access,
                Cookie(w.jar.value.family, w.jar.value.index + 1));
    RunOf(w, i, access);
  }

  lemma RunOf(w: World, i: nat, access: Access)
    ensures Run(w, Renewal(i, access))
            == Next(Next(Next(Next(Next(Next(w, Unauthorized(i)), EnterLock(i)), Serve(i, Accept(access))), Land(i)),
                         ResumeTab(i)), Finish(i))
  {
    var steps := Renewal(i, access);
    assert steps[1..][1..] == steps[2..] && steps[2..][1..] == steps[3..];
    assert steps[3..][1..] == steps[4..] && steps[4..][1..] == steps[5..] && steps[5..][1..] == [];
    var w1 := Next(w, steps[0]);
    var w2 := Next(w1, steps[1]);
    var w3 := Next(w2, steps[2]);
    var w4 := Next(w3, steps[3]);
    var w5 := Next(w4, steps[4]);
    assert Run(w5, steps[5..]) == Run(Next(w5, steps[5]), []);
    assert Run(w4, steps[4..]) == Run(w5, steps[5..]);
    assert Run(w3, steps[3..]) == Run(w4, steps[4..]);
    assert Run(w2, steps[2..]) == Run(w3, steps[3..]);
    assert Run(w1, steps[1..]) == Run(w2, steps[2..]);
  }

  /** After a logout the tab holds no token, and neither its timer nor focus can start a renewal any more. */
  lemma LogoutIsQuiet(w: World, i: nat, tenantKnown: bool)
    requires Enabled(w, LocalLogout(i))
    ensures var w' := Next(w, LocalLogout(i));
            && w'.tabs[i].token.None? && w'.tabs[i].timer.None? && w'.tabs[i].terminal == w.tabs[i].terminal
            && !Enabled(w', TimerFires(i, tenantKnown)) && !Enabled(w', TabShown(i, tenantKnown))
  {
  }
}
