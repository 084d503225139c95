/**
 * The session layer of one tab in its own form: module variables that the
 * client updates step by step. Every method is proved against the function of
 * SessionTab that RenewalProtocol uses for the same piece of code.
 */
module PortalSession {
  import opened Options
  import opened SessionTab

  class Session {
    var inMemoryAccessToken: Option<Access>
    var terminalSessionError: bool
    var refreshAccessTokenPromise: Flight
    var lastCrossTabRenewalAt: int
    var proactiveRefreshTimer: Option<int>
    var proactiveRefreshListenersAttached: bool
    var authBroadcastChannel: bool
    ghost var sentAt: int
    ghost var renewed: seq<int>

    ghost function View(): Tab
      reads this
    {
      Tab(inMemoryAccessToken, terminalSessionError, refreshAccessTokenPromise, lastCrossTabRenewalAt,
          proactiveRefreshTimer, proactiveRefreshListenersAttached, authBroadcastChannel, sentAt, renewed)
    }

    constructor ()
      ensures View() == FreshTab()
    {
      inMemoryAccessToken := None;
      terminalSessionError := false;
      refreshAccessTokenPromise := Idle;
      lastCrossTabRenewalAt := 0;
      proactiveRefreshTimer := None;
      proactiveRefreshListenersAttached := false;
      authBroadcastChannel := false;
      sentAt, renewed := 0, [];
    }

    method CancelProactiveRefreshTimer()
      modifies this`proactiveRefreshTimer
      ensures proactiveRefreshTimer == None
    {
      if proactiveRefreshTimer != None {
        proactiveRefreshTimer := None;
      }
    }

    method ScheduleProactiveRefresh(now: int)
      modifies this`proactiveRefreshTimer, this`proactiveRefreshListenersAttached
      ensures View() == Schedule(old(View()), now)
    {
      CancelProactiveRefreshTimer();
      if inMemoryAccessToken.None? {
        return;
      }
      var exp := inMemoryAccessToken.value.exp;
      if exp.None? || exp.value == 0 {
        return;
      }
      proactiveRefreshListenersAttached := true;
      var delay := Max(exp.value * 1000 - PROACTIVE_MARGIN_MS - now, 0);
      proactiveRefreshTimer := Some(now + delay);
    }

    method PersistAccessToken(token: Option<Access>, now: int)
      modifies this
      ensures View() == Persist(old(View()), token, now)
    {
      if token.Some? {
        terminalSessionError := false;
      } else {
        renewed := [];
      }
      inMemoryAccessToken := token;
      ScheduleProactiveRefresh(now);
    }

    method HandleAuthBroadcastMessage(access: Access, now: int)
      modifies this
      ensures View() == Adopt(old(View()), access, now)
    {
      lastCrossTabRenewalAt := now;
      PersistAccessToken(Some(access), now);
    }

    /** Throws when the session is terminal, joins a shared promise, or starts one. */
    method RefreshAccessToken(source: Source) returns (started: bool)
      modifies this`refreshAccessTokenPromise
      ensures View() == Start(old(View()), source)
      ensures started <==> !terminalSessionError && old(refreshAccessTokenPromise).Idle?
    {
      if terminalSessionError {
        return false;
      }
      if !refreshAccessTokenPromise.Idle? {
        return false;
      }
      refreshAccessTokenPromise := Waiting(source);
      started := true;
    }

    /** The callback under the lock, or the direct call when there are no Web Locks. */
    method RequestRefreshAcrossTabs(locks: bool, jar: Option<Cookie>, now: int)
      requires refreshAccessTokenPromise.Waiting?
      modifies this
      ensures View() == Enter(old(View()), locks, jar, now)
    {
      var source := refreshAccessTokenPromise.source;
      if locks {
        var adopted := inMemoryAccessToken;
        if adopted.Some? && now - lastCrossTabRenewalAt < RENEWAL_WINDOW_MS {
          refreshAccessTokenPromise := Settled;
          return;
        }
      }
      refreshAccessTokenPromise := Sent(source, jar);
      sentAt := now;
    }

    /** performRefreshRequest from the answer on; `posted` is what the channel carries to the other tabs. */
    method PerformRefreshRequest(channels: bool, now: int) returns (posted: Option<Access>)
      requires refreshAccessTokenPromise.Landed?
      modifies this
      ensures View() == Resume(old(View()), channels, now)
      ensures posted == (if old(refreshAccessTokenPromise).reply.Granted? && (channels || old(authBroadcastChannel))
                         then Some(old(refreshAccessTokenPromise).reply.access) else None)
    {
      var flight := refreshAccessTokenPromise;
      posted := None;
      match flight.reply {
        case Refused =>
          PersistAccessToken(None, now);
          if flight.source == Reactive {
            terminalSessionError := true;
          }
        case Granted(access, _) =>
          PersistAccessToken(Some(access), now);
          lastCrossTabRenewalAt := now;
          renewed := renewed + [now];
          if !authBroadcastChannel {
            authBroadcastChannel := channels;
          }
          if authBroadcastChannel {
            posted := Some(access);
          }
      }
      refreshAccessTokenPromise := Settled;
    }

    method ProactiveTimerFires(tenantKnown: bool)
      modifies this
      ensures View() == FireTimer(old(View()), tenantKnown)
    {
      proactiveRefreshTimer := None;
      if tenantKnown {
        var _ := RefreshAccessToken(Proactive);
      }
    }

    method RefreshIfExpiringSoon(tenantKnown: bool, now: int)
      modifies this
      ensures View() == CheckExpiry(old(View()), tenantKnown, now)
    {
      if inMemoryAccessToken.None? {
        return;
      }
      var exp := inMemoryAccessToken.value.exp;
      if exp.None? || exp.value == 0 || exp.value * 1000 - now >= PROACTIVE_MARGIN_MS {
        return;
      }
      if tenantKnown {
        var _ := RefreshAccessToken(Proactive);
      }
    }

    method ClearTerminalSessionError()
      modifies this
      ensures View() == old(View()).(terminal := false)
    {
      terminalSessionError := false;
    }

    method LogoutLocally(now: int)
      modifies this
      ensures View() == Logout(old(View()), now)
    {
      PersistAccessToken(None, now);
      proactiveRefreshListenersAttached := false;
    }
  }
}
