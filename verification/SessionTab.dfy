/**
 * The session variables of one browser tab and what each uninterrupted piece
 * of the portal client does to them (apps/portal/src/lib/api-client.ts).
 *
 * An `await` in the client splits a function into pieces; between two pieces
 * other events of the tab, other tabs and the server may run. Each piece is a
 * function from Tab to Tab here; module PortalSession proves the imperative
 * form against these functions, and module RenewalProtocol interleaves them.
 */
module SessionTab {
  import opened Options

  /** An access token with the `exp` claim that its payload decodes to, if any. */
  datatype Access = Access(text: string, exp: Option<int>)

  /** A refresh cookie: the index-th token of a token family. */
  datatype Cookie = Cookie(family: nat, index: nat)

  datatype Source = Reactive | Proactive

  datatype Reply = Granted(access: Access, cookie: Cookie) | Refused

  /** Where the shared renewal promise of the tab stands. */
  datatype Flight =
    | Idle                                             // no shared promise
    | Waiting(source: Source)                          // promise set, lock requested
    | Sent(source: Source, presented: Option<Cookie>)  // fetch outstanding, not answered yet
    | Answered(source: Source, reply: Reply)           // answer on its way back
    | Landed(source: Source, reply: Reply)             // headers in, Set-Cookie stored
    | Settled                                          // promise settled, `finally` not run yet
  {
    /** A refresh request of this tab is out and its answer has not been consumed. */
    predicate Outstanding() {
      Sent? || Answered? || Landed?
    }
  }

  /**
   * `sentAt` and `renewed` only observe: no branch reads them. `sentAt` is when
   * the last request went out; `renewed` lists when the tab renewed by itself
   * since its token was last empty.
   */
  datatype Tab = Tab(
    token: Option<Access>,
    terminal: bool,
    flight: Flight,
    lastRenewal: int,
    timer: Option<int>,
    listeners: bool,
    channel: bool,
    sentAt: int,
    renewed: seq<int>)

  const RENEWAL_WINDOW_MS := 5_000
  const PROACTIVE_MARGIN_MS := 90_000

  function FreshTab(): Tab {
    Tab(None, false, Idle, 0, None, false, false, 0, [])
  }

  /** JavaScript's `!exp`: a missing claim and zero are both falsy. */
  function UsableExp(token: Option<Access>): Option<int> {
    if token.Some? && token.value.exp.Some? && token.value.exp.value != 0 then token.value.exp else None
  }

  function Max(a: int, b: int): int {
    if a > b then a else b
  }

  function Schedule(t: Tab, now: int): Tab {
    match UsableExp(t.token)
    case None => t.(timer := None)
    case Some(exp) =>
      t.(timer := Some(now + Max(exp * 1000 - PROACTIVE_MARGIN_MS - now, 0)), listeners := true)
  }

  function Persist(t: Tab, token: Option<Access>, now: int): Tab {
    Schedule(t.(token := token,
                terminal := t.terminal && token.None?,
                renewed := if token.None? then [] else t.renewed), now)
  }

  function Adopt(t: Tab, access: Access, now: int): Tab {
    Persist(t.(lastRenewal := now), Some(access), now)
  }

  /** refreshAccessToken up to its first await: throw, join or start. */
  function Start(t: Tab, source: Source): Tab {
    if t.terminal || !t.flight.Idle? then t else t.(flight := Waiting(source))
  }

  predicate MayReuse(t: Tab, now: int) {
    t.token.Some? && now - t.lastRenewal < RENEWAL_WINDOW_MS
  }

  /** The request leaves the tab unless, under the lock, a recent token is reused. */
  function Enter(t: Tab, locks: bool, jar: Option<Cookie>, now: int): Tab
    requires t.flight.Waiting?
  {
    if locks && MayReuse(t, now) then t.(flight := Settled)
    else t.(flight := Sent(t.flight.source, jar), sentAt := now)
  }

  /** The rest of performRefreshRequest once the answer is in. */
  function Resume(t: Tab, channels: bool, now: int): Tab
    requires t.flight.Landed?
  {
    match t.flight.reply
    case Refused =>
      var emptied := Persist(t, None, now);
      emptied.(terminal := t.flight.source.Reactive? || emptied.terminal, flight := Settled)
    case Granted(access, _) =>
      Persist(t, Some(access), now).(
        lastRenewal := now,
        channel := t.channel || channels,
        flight := Settled,
        renewed := t.renewed + [now])
  }

  /** The timer callback: the handle is cleared, then a proactive renewal starts if a tenant is known. */
  function FireTimer(t: Tab, tenantKnown: bool): Tab {
    var t' := t.(timer := None);
    if tenantKnown then Start(t', Proactive) else t'
  }

  /** refreshIfExpiringSoon, reached from the focus and visibility listeners. */
  function CheckExpiry(t: Tab, tenantKnown: bool, now: int): Tab {
    match UsableExp(t.token)
    case None => t
    case Some(exp) =>
      if exp * 1000 - now >= PROACTIVE_MARGIN_MS || !tenantKnown then t else Start(t, Proactive)
  }

  function Logout(t: Tab, now: int): Tab {
    Persist(t, None, now).(listeners := false)
  }

  /** What every tab keeps, whatever the other tabs and the server do. */
  ghost predicate TabInv(t: Tab) {
    && (t.terminal ==> t.token.None? && t.timer.None?)
    && (t.timer.Some? ==> UsableExp(t.token).Some? && t.listeners)
    && (t.flight.Waiting? || t.flight.Outstanding() ==> !t.terminal)
    && (t.token.None? ==> t.renewed == [])
  }

  /** Consecutive renewals are a reuse window apart. */
  ghost predicate Spaced(times: seq<int>) {
    forall i :: 0 < i < |times| ==> times[i] - times[i - 1] >= RENEWAL_WINDOW_MS
  }

  /** The spacing of a tab's renewals, and what keeps it: nothing was sent inside the window. */
  ghost predicate RateInv(t: Tab, now: int) {
    && Spaced(t.renewed)
    && (t.renewed != [] ==> t.renewed[|t.renewed| - 1] <= t.lastRenewal)
    && t.lastRenewal <= Max(now, 0)
    && (t.flight.Outstanding() ==> t.sentAt <= now)
    && (t.flight.Outstanding() && t.renewed != [] ==> t.sentAt - t.renewed[|t.renewed| - 1] >= RENEWAL_WINDOW_MS)
  }

  /** A piece that neither renews nor sends keeps the spacing. */
  lemma RateKept(t: Tab, t': Tab, now: int)
    requires RateInv(t, now) && now >= 0
    requires t'.renewed == t.renewed || t'.renewed == []
    requires t'.lastRenewal == t.lastRenewal || t'.lastRenewal == now || (t'.lastRenewal == 0 && t'.renewed == [])
    requires t'.flight.Outstanding() ==> t.flight.Outstanding() && t'.sentAt == t.sentAt
    ensures RateInv(t', now)
  {
  }

  lemma {:induction false} SpacedCount(times: seq<int>)
    requires Spaced(times) && times != []
    ensures (|times| - 1) * RENEWAL_WINDOW_MS <= times[|times| - 1] - times[0]
  {
    if |times| > 1 {
      var front := times[..|times| - 1];
      assert Spaced(front);
      SpacedCount(front);
    }
  }

  lemma SpacedSuffixCount(earlier: seq<int>, times: seq<int>)
    requires Spaced(earlier + times) && times != []
    ensures (|times| - 1) * RENEWAL_WINDOW_MS <= times[|times| - 1] - times[0]
    ensures (earlier + times)[|earlier + times| - 1] == times[|times| - 1]
  {
    forall k | 0 < k < |times| ensures times[k] - times[k - 1] >= RENEWAL_WINDOW_MS {
      var at := |earlier| + k;
      assert (earlier + times)[at] == times[k] && (earlier + times)[at - 1] == times[k - 1];
    }
    SpacedCount(times);
  }
}
