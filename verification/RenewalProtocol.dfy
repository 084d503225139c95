/**
 * Any number of tabs of one browser renewing one session against a server
 * that rotates the refresh token on every use and revokes the whole family
 * when a rotated token comes back. One Step is one uninterrupted piece of
 * one party; a run is any sequence of steps.
 */
module RenewalProtocol {
  import opened Options
  import opened SessionTab

  /** Burned: reuse detection revoked the family while it still had a usable token. */
  datatype FamilyState = Live | Closed | Burned

  /** `reused` observes that a rotated token came back while the family was live. */
  datatype Family = Family(head: nat, state: FamilyState, reused: bool)

  /** Decision of the server's other checks: throttling, expiry, user status. */
  datatype Verdict = Refuse | Accept(access: Access)

  datatype World = World(
    locks: bool,                 // navigator.locks exists
    channels: bool,              // BroadcastChannel exists
    revokes: bool,               // the revocation outlives the exception that reports the reuse
    tabs: seq<Tab>,
    inbox: seq<seq<Access>>,     // broadcast messages not delivered yet, per tab
    holder: Option<nat>,         // tab whose callback holds the Web Lock
    jar: Option<Cookie>,         // the refresh cookie all tabs share
    families: seq<Family>,
    orphans: seq<Option<Cookie>>, // requests whose tab gave up; they may still arrive
    now: nat)

  datatype Step =
    | Tick(ms: nat)
    | Unauthorized(i: nat)
    | TimerFires(i: nat, tenantKnown: bool)
    | TabShown(i: nat, tenantKnown: bool)
    | EnterLock(i: nat)
    | Serve(i: nat, verdict: Verdict)
    | Land(i: nat)
    | ResumeTab(i: nat)
    | BodyFails(i: nat)
    | RequestFails(i: nat)       // the fetch throws and the server's state did not change by it
    | LoseAnswer(i: nat)         // the fetch throws although the server rotated, or still may
    | Finish(i: nat)
    | Deliver(i: nat)
    | SetToken(i: nat, token: Option<Access>)
    | LocalLogout(i: nat)
    | ClearTerminal(i: nat)
    | Reload(i: nat)
    | ServerLogin
    | CloseFamily(f: nat)
    | ClearJar
    | ServeOrphan(k: nat, verdict: Verdict)

  function Initial(tabs: nat, locks: bool, channels: bool, revokes: bool, now: nat): World {
    World(locks, channels, revokes, seq(tabs, _ => FreshTab()), seq(tabs, _ => []), None, None, [], [], now)
  }

  /** The tab a step belongs to, when it belongs to one. */
  function Actor(s: Step): Option<nat> {
    match s
    case Tick(_) | ServerLogin | CloseFamily(_) | ClearJar | ServeOrphan(_, _) => None
    case _ => Some(s.i)
  }

  predicate Enabled(w: World, s: Step) {
    if Actor(s).Some? then
      && s.i < |w.tabs| == |w.inbox|
      && var t := w.tabs[s.i];
         match s
         case TimerFires(_, _) => t.timer.Some? && t.timer.value <= w.now
         case TabShown(_, _) => t.listeners
         case EnterLock(_) => t.flight.Waiting? && (w.locks ==> w.holder.None?)
         case Serve(_, _) => t.flight.Sent?
         case RequestFails(_) => t.flight.Sent? || (t.flight.Answered? && t.flight.reply.Refused?)
         case Land(_) => t.flight.Answered?
         case ResumeTab(_) => t.flight.Landed?
         case BodyFails(_) => t.flight.Landed? && t.flight.reply.Granted?
         case LoseAnswer(_) => t.flight.Sent? || (t.flight.Answered? && t.flight.reply.Granted?)
         case Finish(_) => t.flight.Settled?
         case Deliver(_) => w.inbox[s.i] != []
         case Reload(_) => !t.flight.Sent? && !t.flight.Answered?
         case _ => true
    else
      match s
      case CloseFamily(f) => f < |w.families|
      case ServeOrphan(k, _) => k < |w.orphans|
      case _ => true
  }

  /**
   * Rotation with reuse detection (apps/api/src/modules/auth/auth.service.ts:558-635).
   * The revocation is written inside the transaction that the exception after
   * it rolls back, so whether it lasts is left open: `revokes`.
   */
  function ServerReply(families: seq<Family>, revokes: bool, presented: Option<Cookie>,
                       verdict: Verdict): (seq<Family>, Reply) {
    if verdict.Refuse? || presented.None? || presented.value.family >= |families| then (families, Refused)
    else
      var c := presented.value;
      var fam := families[c.family];
      if !fam.state.Live? then (families, Refused)
      else if c.index != fam.head then
        (families[c.family := Family(fam.head, if revokes then Burned else fam.state, true)], Refused)
      else
        (families[c.family := fam.(head := fam.head + 1)], Granted(verdict.access, Cookie(c.family, c.index + 1)))
  }

  function Post(w: World, from: nat, access: Access): seq<seq<Access>>
    requires |w.inbox| == |w.tabs|
  {
    seq(|w.inbox|, j requires 0 <= j < |w.inbox| =>
      if j != from && w.tabs[j].channel then w.inbox[j] + [access] else w.inbox[j])
  }

  /** The lock goes free when the callback that holds it settles. */
  function Release(w: World, i: nat): Option<nat> {
    if w.holder == Some(i) then None else w.holder
  }

  function TabStep(w: World, s: Step): Tab
    requires Actor(s).Some? && Enabled(w, s)
  {
    var t := w.tabs[s.i];
    match s
    case Unauthorized(_) => Start(t, Reactive)
    case TimerFires(_, known) => FireTimer(t, known)
    case TabShown(_, known) => CheckExpiry(t, known, w.now)
    case EnterLock(_) => Enter(t, w.locks, w.jar, w.now)
    case Serve(_, v) => t.(flight := Answered(t.flight.source,
                                              ServerReply(w.families, w.revokes, t.flight.presented, v).1))
    case Land(_) => t.(flight := Landed(t.flight.source, t.flight.reply))
    case ResumeTab(_) => Resume(t, w.channels, w.now)
    case BodyFails(_) | RequestFails(_) | LoseAnswer(_) => t.(flight := Settled)
    case Finish(_) => t.(flight := Idle)
    case Deliver(_) => Adopt(t, w.inbox[s.i][0], w.now)
    case SetToken(_, token) => Persist(t, token, w.now)
    case LocalLogout(_) => Logout(t, w.now)
    case ClearTerminal(_) => t.(terminal := false)
    case Reload(_) => FreshTab()
  }

  function Next(w: World, s: Step): World {
    if !Enabled(w, s) then w
    else if Actor(s).None? then
      match s
      case Tick(ms) => w.(now := w.now + ms)
      case ServerLogin =>
        w.(families := w.families + [Family(0, Live, false)], jar := Some(Cookie(|w.families|, 0)))
      case CloseFamily(f) =>
        if w.families[f].state.Live? then w.(families := w.families[f := w.families[f].(state := Closed)]) else w
      case ClearJar => w.(jar := None)
      case ServeOrphan(k, v) =>
        w.(families := ServerReply(w.families, w.revokes, w.orphans[k], v).0,
           orphans := w.orphans[..k] + w.orphans[k + 1..])
    else
      var t := w.tabs[s.i];
      var w' := w.(tabs := w.tabs[s.i := TabStep(w, s)]);
      match s
      case EnterLock(i) => if w.locks && TabStep(w, s).flight.Sent? then w'.(holder := Some(i)) else w'
      case Serve(_, v) => w'.(families := ServerReply(w.families, w.revokes, t.flight.presented, v).0)
      case Land(_) => if t.flight.reply.Granted? then w'.(jar := Some(t.flight.reply.cookie)) else w'
      case ResumeTab(i) =>
        w'.(holder := Release(w, i),
            inbox := if t.flight.reply.Granted? && w.channels then Post(w, i, t.flight.reply.access) else w.inbox)
      case BodyFails(_) | RequestFails(_) => w'.(holder := Release(w, s.i))
      case LoseAnswer(i) =>
        w'.(holder := Release(w, i),
            orphans := if t.flight.Sent? then w.orphans + [t.flight.presented] else w.orphans)
      case Reload(i) => w'.(holder := Release(w, i), inbox := w.inbox[i := []])
      case Deliver(i) => w'.(inbox := w.inbox[i := w.inbox[i][1..]])
      case _ => w'
  }

  function Run(w: World, steps: seq<Step>): World
    decreases |steps|
  {
    if steps == [] then w else Run(Next(w, steps[0]), steps[1..])
  }

  /** No tab gives up on a request that the server has received or may still receive. */
  ghost predicate NoLostAnswer(steps: seq<Step>) {
    forall s :: s in steps ==> !s.LoseAnswer?
  }

  // ---- One request at a time --------------------------------------------------

  /** With Web Locks the holder is exactly the tab with a request out; without them there is no holder. */
  ghost predicate LockInv(w: World) {
    && |w.inbox| == |w.tabs|
    && (w.locks ==> forall i :: 0 <= i < |w.tabs| ==> (w.tabs[i].flight.Outstanding() <==> w.holder == Some(i)))
    && (!w.locks ==> w.holder.None?)
  }

  /** What keeps requests apart: the Web Lock, or a single tab, which shares one promise. */
  predicate Serialised(w: World) {
    w.locks || |w.tabs| <= 1
  }

  lemma LockStep(w: World, s: Step)
    requires LockInv(w)
    ensures LockInv(Next(w, s)) && Next(w, s).locks == w.locks && |Next(w, s).tabs| == |w.tabs|
  {
    if Enabled(w, s) && Actor(s).Some? {
      LockTabStep(w, s);
    }
  }

  /** A step changes at most the tab it belongs to. */
  lemma OneTabChanges(w: World, s: Step)
    ensures Next(w, s).tabs == if Enabled(w, s) && Actor(s).Some? then w.tabs[s.i := TabStep(w, s)] else w.tabs
  {
  }

  lemma LockTaken(w: World, s: Step)
    requires LockInv(w) && w.locks && Enabled(w, s) && Actor(s).Some?
    requires TabStep(w, s).flight.Outstanding() && !w.tabs[s.i].flight.Outstanding()
    ensures w.holder.None? && Next(w, s).holder == Some(s.i)
  {
    assert s.EnterLock?;
  }

  lemma LockFreed(w: World, s: Step)
    requires LockInv(w) && w.locks && Enabled(w, s) && Actor(s).Some?
    requires !TabStep(w, s).flight.Outstanding() && w.tabs[s.i].flight.Outstanding()
    ensures Next(w, s).holder == None
  {
    assert w.holder == Some(s.i);
  }

  lemma LockKept(w: World, s: Step)
    requires LockInv(w) && w.locks && Enabled(w, s) && Actor(s).Some?
    requires TabStep(w, s).flight.Outstanding() == w.tabs[s.i].flight.Outstanding()
    ensures Next(w, s).holder == w.holder
  {
  }

  lemma NoLockNoHolder(w: World, s: Step)
    requires |w.inbox| == |w.tabs| && !w.locks && w.holder.None?
    ensures Next(w, s).holder.None?
  {
  }

  /** The steps that write or read broadcast messages. */
  predicate Messages(s: Step) {
    s.ResumeTab? || s.Reload? || s.Deliver?
  }

  lemma MessagesKept(w: World, s: Step)
    requires !Messages(s)
    ensures Next(w, s).inbox == w.inbox
  {
  }

  lemma MessagesShape(w: World, s: Step)
    requires |w.inbox| == |w.tabs| && Messages(s)
    ensures |Next(w, s).inbox| == |w.tabs|
  {
  }

  lemma LocksKept(w: World, s: Step)
    ensures Next(w, s).locks == w.locks
  {
  }

  lemma SameShape(w: World, s: Step)
    requires |w.inbox| == |w.tabs|
    ensures |Next(w, s).inbox| == |w.tabs| && Next(w, s).locks == w.locks
  {
    LocksKept(w, s);
    if Messages(s) {
      MessagesShape(w, s);
    } else {
      MessagesKept(w, s);
    }
  }

  /** A step of a tab touches no other tab, and takes or frees the lock with the request it sends or settles. */
  lemma LockTabStep(w: World, s: Step)
    requires LockInv(w) && Enabled(w, s) && Actor(s).Some?
    ensures LockInv(Next(w, s)) && Next(w, s).locks == w.locks
    ensures Next(w, s).tabs == w.tabs[s.i := TabStep(w, s)]
  {
    OneTabChanges(w, s);
    SameShape(w, s);
    if w.locks {
      if TabStep(w, s).flight.Outstanding() && !w.tabs[s.i].flight.Outstanding() {
        LockTaken(w, s);
      } else if w.tabs[s.i].flight.Outstanding() && !TabStep(w, s).flight.Outstanding() {
        LockFreed(w, s);
      } else {
        LockKept(w, s);
      }
    } else {
      NoLockNoHolder(w, s);
    }
  }

  lemma {:induction false} LockRun(w: World, steps: seq<Step>)
    requires LockInv(w)
    ensures LockInv(Run(w, steps)) && Run(w, steps).locks == w.locks && |Run(w, steps).tabs| == |w.tabs|
    decreases |steps|
  {
    if steps != [] {
      LockStep(w, steps[0]);
      LockRun(Next(w, steps[0]), steps[1..]);
    }
  }

  lemma OnlyOneOutstanding(w: World, i: nat, j: nat)
    requires LockInv(w) && Serialised(w) && i < |w.tabs| && j < |w.tabs|
    requires w.tabs[i].flight.Outstanding() && w.tabs[j].flight.Outstanding()
    ensures i == j
  {
  }

  /** In every reachable state at most one tab has a refresh request out. */
  lemma AtMostOneOutstanding(n: nat, locks: bool, channels: bool, revokes: bool, now: nat, steps: seq<Step>)
    requires locks || n <= 1
    ensures var w := Run(Initial(n, locks, channels, revokes, now), steps);
            && |w.tabs| == n
            && forall i, j :: 0 <= i < n && 0 <= j < n
                              && w.tabs[i].flight.Outstanding() && w.tabs[j].flight.Outstanding()
                              ==> i == j
  {
    LockRun(Initial(n, locks, channels, revokes, now), steps);
  }

  // ---- No live family is revoked ---------------------------------------------

  /** The cookie is the one token of its family that the server still accepts. */
  predicate Current(families: seq<Family>, c: Cookie) {
    c.family < |families| && (families[c.family].state.Live? ==> c.index == families[c.family].head)
  }

  /** The answer of tab i, still on its way, replaces exactly this cookie. */
  predicate ReplacedBy(w: World, c: Cookie, i: nat) {
    && i < |w.tabs|
    && var f := w.tabs[i].flight;
       f.Answered? && f.reply.Granted? && f.reply.cookie == Cookie(c.family, c.index + 1)
  }

  ghost predicate BeingReplaced(w: World, c: Cookie) {
    exists i: nat :: ReplacedBy(w, c, i)
  }

  ghost predicate FlightCookieCurrent(families: seq<Family>, f: Flight) {
    && (f.Sent? && f.presented.Some? ==> Current(families, f.presented.value))
    && (f.Answered? && f.reply.Granted? ==> Current(families, f.reply.cookie))
  }

  /** No family has met reuse detection. */
  ghost predicate Silent(w: World) {
    forall f :: 0 <= f < |w.families| ==> !w.families[f].reused && !w.families[f].state.Burned?
  }

  ghost predicate CookieInv(w: World) {
    && LockInv(w) && Serialised(w)
    && (w.jar.Some? ==> Current(w.families, w.jar.value) || BeingReplaced(w, w.jar.value))
    && (forall i :: 0 <= i < |w.tabs| ==> FlightCookieCurrent(w.families, w.tabs[i].flight))
    && w.orphans == [] && Silent(w)
  }

  lemma CookieEnter(w: World, s: Step)
    requires CookieInv(w) && s.EnterLock? && Enabled(w, s)
    ensures CookieInv(Next(w, s))
  {
    LockStep(w, s);
    var w' := Next(w, s);
    assert w'.families == w.families && w'.jar == w.jar && w'.orphans == w.orphans;
    assert forall j :: 0 <= j < |w.tabs| && j != s.i ==> w'.tabs[j] == w.tabs[j];
    assert forall j :: 0 <= j < |w.tabs| ==> !w.tabs[j].flight.Outstanding();
    assert w.jar.Some? ==> !BeingReplaced(w, w.jar.value);
  }

  /** Only one tab can be served, so what it presents and the jar agree on the family's head. */
  lemma CookieServe(w: World, s: Step)
    requires CookieInv(w) && s.Serve? && Enabled(w, s)
    ensures CookieInv(Next(w, s))
  {
    LockStep(w, s);
    var w' := Next(w, s);
    OthersAreQuiet(w, s.i);
    assert forall j :: 0 <= j < |w.tabs| && j != s.i ==> w'.tabs[j] == w.tabs[j];
    assert w.jar.Some? ==> Current(w.families, w.jar.value);
    ServedCookies(w, s);
  }

  lemma ServedCookies(w: World, s: Step)
    requires CookieInv(w) && s.Serve? && Enabled(w, s)
    requires w.jar.Some? ==> Current(w.families, w.jar.value)
    ensures var w' := Next(w, s);
            && w'.jar == w.jar && w'.orphans == w.orphans && Silent(w')
            && FlightCookieCurrent(w'.families, w'.tabs[s.i].flight)
            && (w.jar.Some? ==> Current(w'.families, w.jar.value) || ReplacedBy(w', w.jar.value, s.i))
  {
    assert FlightCookieCurrent(w.families, w.tabs[s.i].flight);
  }

  lemma OthersAreQuiet(w: World, i: nat)
    requires LockInv(w) && Serialised(w) && i < |w.tabs| && w.tabs[i].flight.Outstanding()
    ensures forall j :: 0 <= j < |w.tabs| && j != i ==> !w.tabs[j].flight.Outstanding()
  {
    forall j | 0 <= j < |w.tabs| && w.tabs[j].flight.Outstanding() ensures j == i {
      OnlyOneOutstanding(w, i, j);
    }
  }

  lemma CookieLand(w: World, s: Step)
    requires CookieInv(w) && s.Land? && Enabled(w, s)
    ensures CookieInv(Next(w, s))
  {
    LockStep(w, s);
    OthersAreQuiet(w, s.i);
    LandKeeps(w, s);
    assert FlightCookieCurrent(w.families, w.tabs[s.i].flight);
    assert w.tabs[s.i].flight.reply.Refused? && w.jar.Some? ==> Current(w.families, w.jar.value);
  }

  lemma LandKeeps(w: World, s: Step)
    requires s.Land? && Enabled(w, s)
    ensures var w', reply := Next(w, s), w.tabs[s.i].flight.reply;
            && w'.families == w.families && w'.orphans == w.orphans
            && w'.jar == (if reply.Granted? then Some(reply.cookie) else w.jar)
            && |w'.tabs| == |w.tabs| && w'.tabs[s.i].flight.Landed?
            && forall j :: 0 <= j < |w.tabs| && j != s.i ==> w'.tabs[j] == w.tabs[j]
  {
  }

  /** Steps of a tab that leave the cookies alone and do not move a request along. */
  predicate IsLocal(w: World, s: Step) {
    Actor(s).Some? && Enabled(w, s) && !s.EnterLock? && !s.Serve? && !s.Land? && !s.LoseAnswer?
  }

  lemma CookieLocal(w: World, s: Step)
    requires CookieInv(w) && IsLocal(w, s)
    ensures CookieInv(Next(w, s))
  {
    LockStep(w, s);
    LocalKeepsCookies(w, s);
    var w' := Next(w, s);
    if w.jar.Some? && !Current(w.families, w.jar.value) {
      var i: nat :| ReplacedBy(w, w.jar.value, i);
      assert ReplacedBy(w', w.jar.value, i);
    }
  }

  lemma LocalKeepsServer(w: World, s: Step)
    requires IsLocal(w, s)
    ensures Next(w, s).families == w.families && Next(w, s).jar == w.jar && Next(w, s).orphans == w.orphans
  {
  }

  /** A local step starts no request and drops no granted answer. */
  lemma LocalKeepsFlight(w: World, s: Step)
    requires IsLocal(w, s)
    ensures var f, f' := w.tabs[s.i].flight, TabStep(w, s).flight;
            (f' == f || !f'.Outstanding()) && (f.Answered? && f.reply.Granted? ==> f' == f)
  {
  }

  lemma LocalKeepsCookies(w: World, s: Step)
    requires |w.inbox| == |w.tabs| && IsLocal(w, s)
    ensures var w' := Next(w, s);
            && w'.families == w.families && w'.jar == w.jar && w'.orphans == w.orphans
            && |w'.tabs| == |w.tabs|
            && (forall j :: 0 <= j < |w.tabs| && j != s.i ==> w'.tabs[j] == w.tabs[j])
            && (w'.tabs[s.i].flight == w.tabs[s.i].flight || !w'.tabs[s.i].flight.Outstanding())
            && (w.tabs[s.i].flight.Answered? && w.tabs[s.i].flight.reply.Granted? ==>
                  w'.tabs[s.i].flight == w.tabs[s.i].flight)
  {
    LocalKeepsServer(w, s);
    LocalKeepsFlight(w, s);
    OneTabChanges(w, s);
  }

  lemma CookieOutside(w: World, s: Step)
    requires CookieInv(w) && Actor(s).None? && Enabled(w, s)
    ensures CookieInv(Next(w, s))
  {
    LockStep(w, s);
    var w' := Next(w, s);
    assert w'.tabs == w.tabs;
    assert forall c :: Current(w.families, c) ==> Current(w'.families, c);
    if w'.jar == w.jar && w.jar.Some? && !Current(w.families, w.jar.value) {
      var i: nat :| ReplacedBy(w, w.jar.value, i);
      assert ReplacedBy(w', w.jar.value, i);
    }
  }

  lemma CookieStep(w: World, s: Step)
    requires CookieInv(w) && (s.LoseAnswer? ==> !Enabled(w, s))
    ensures CookieInv(Next(w, s))
  {
    if Enabled(w, s) {
      match s
      case EnterLock(_) => CookieEnter(w, s);
      case Serve(_, _) => CookieServe(w, s);
      case Land(_) => CookieLand(w, s);
      case _ => if Actor(s).None? { CookieOutside(w, s); } else { CookieLocal(w, s); }
    }
  }

  lemma {:induction false} CookieRun(w: World, steps: seq<Step>)
    requires CookieInv(w) && (NoLostAnswer(steps) || w.tabs == [])
    ensures CookieInv(Run(w, steps))
    decreases |steps|
  {
    if steps != [] {
      CookieStep(w, steps[0]);
      OneTabChanges(w, steps[0]);
      CookieRun(Next(w, steps[0]), steps[1..]);
    }
  }

  /**
   * With Web Locks, or in a lone tab, and with no lost answer, no rotated token
   * ever comes back to a live family: reuse detection stays silent and revokes
   * nothing.
   */
  lemma NeverRevoked(n: nat, locks: bool, channels: bool, revokes: bool, now: nat, steps: seq<Step>)
    requires (locks || n <= 1) && NoLostAnswer(steps)
    ensures Silent(Run(Initial(n, locks, channels, revokes, now), steps))
  {
    CookieRun(Initial(n, locks, channels, revokes, now), steps);
  }
}
