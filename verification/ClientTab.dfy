/**
 * The browser half of token rotation: the response interceptor with its shared `refreshing` promise,
 * one tab against the server, every network and microtask interleaving. A refresh response may take
 * arbitrarily long but is not lost; LostAnswers drops that assumption.
 */
module ClientTab {
  import opened Options
  import opened TokenServer

  /** Where one request of the application stands; `Settling(r)` awaits its turn after the promise settled. */
  datatype Phase = Sent | Awaiting | Settling(token: Option<nat>) | Done

  /** `retried` is the `_retry` flag; `sends` counts how often the request went out. */
  datatype Request = Request(sends: nat, retried: bool, phase: Phase)

  /**
   * The shared promise: absent, its POST on the way to the server, the answer on the way back, or
   * resolved with `.then` run and `.finally` still to come. `None` as an answer is a refused refresh.
   */
  datatype Refreshing = Idle | Posted(jti: nat) | Answered(answer: Option<nat>) | Resolved(answer: Option<nat>)

  datatype Tab = Tab(store: Option<nat>, refreshing: Refreshing, requests: seq<Request>)

  /** `mine` is history: the tokens ever issued to this tab. */
  datatype System = System(server: Server, tab: Tab, mine: set<nat>, user: Id)

  // ---- The interceptor ------------------------------------------------------------------------

  /** A 401 for request `i`; the answer says which token, if any, is posted for refresh. */
  function Unauthorized(tab: Tab, i: nat): (Tab, Option<nat>)
    requires i < |tab.requests| && tab.requests[i].phase == Sent
  {
    var r := tab.requests[i];
    if r.retried then (tab.(requests := tab.requests[i := r.(phase := Done)]), None)
    else
      var flagged := r.(retried := true);
      if tab.refreshing != Idle then
        (tab.(requests := tab.requests[i := flagged.(phase := Awaiting)]), None)
      else if tab.store.None? then
        // No refresh token: the handler logs out and rejects.
        (tab.(requests := tab.requests[i := flagged.(phase := Done)], store := None), None)
      else
        (tab.(requests := tab.requests[i := flagged.(phase := Awaiting)], refreshing := Posted(tab.store.value)),
         tab.store)
  }

  /** `.then`: a successful answer replaces the stored tokens. */
  function Resolve(tab: Tab): Tab
    requires tab.refreshing.Answered?
  {
    var answer := tab.refreshing.answer;
    tab.(refreshing := Resolved(answer), store := if answer.Some? then answer else tab.store)
  }

  function WakeOne(r: Request, answer: Option<nat>): Request {
    if r.phase == Awaiting then r.(phase := Settling(answer)) else r
  }

  /** `.finally`: the shared promise is cleared and every request awaiting it becomes runnable. */
  function Clear(tab: Tab): Tab
    requires tab.refreshing.Resolved?
  {
    tab.(refreshing := Idle,
         requests := seq(|tab.requests|, i requires 0 <= i < |tab.requests| => WakeOne(tab.requests[i], tab.refreshing.answer)))
  }

  /** The continuation after `await refreshing`: re-send with the new token, or log out. */
  function Resume(tab: Tab, i: nat): Tab
    requires i < |tab.requests| && tab.requests[i].phase.Settling?
  {
    var r := tab.requests[i];
    if r.phase.token.Some? then tab.(requests := tab.requests[i := r.(phase := Sent, sends := r.sends + 1)])
    else tab.(requests := tab.requests[i := r.(phase := Done)], store := None)
  }

  class Interceptor {
    var store: Option<nat>
    var refreshing: Refreshing
    var requests: seq<Request>

    ghost function View(): Tab
      reads this
    {
      Tab(store, refreshing, requests)
    }

    method OnUnauthorized(i: nat) returns (posted: Option<nat>)
      requires i < |requests| && requests[i].phase == Sent
      modifies this
      ensures (View(), posted) == Unauthorized(old(View()), i)
    {
      posted := None;
      var r := requests[i];
      if r.retried {
        requests := requests[i := r.(phase := Done)];
        return;
      }
      r := r.(retried := true);
      if refreshing == Idle {
        if store.None? {
          requests := requests[i := r.(phase := Done)];
          store := None;
          return;
        }
        posted := store;
        refreshing := Posted(store.value);
      }
      requests := requests[i := r.(phase := Awaiting)];
    }

    method OnRefreshAnswer()
      requires refreshing.Answered?
      modifies this
      ensures View() == Resolve(old(View()))
    {
      if refreshing.answer.Some? {
        store := refreshing.answer;
      }
      refreshing := Resolved(refreshing.answer);
    }

    method OnFinally()
      requires refreshing.Resolved?
      modifies this
      ensures View() == Clear(old(View()))
    {
      var answer, all := refreshing.answer, requests;
      refreshing := Idle;
      requests := seq(|all|, i requires 0 <= i < |all| => WakeOne(all[i], answer));
    }

    method OnResume(i: nat)
      requires i < |requests| && requests[i].phase.Settling?
      modifies this
      ensures View() == Resume(old(View()), i)
    {
      var r := requests[i];
      if r.phase.token.Some? {
        requests := requests[i := r.(phase := Sent, sends := r.sends + 1)];
      } else {
        store := None;
        requests := requests[i := r.(phase := Done)];
      }
    }
  }

  // ---- Tab and server together ----------------------------------------------------------------

  datatype Event =
    | NewRequest
    | Success(i: nat)                                  // a response other than 401
    | Denied(i: nat)                                   // a 401
    | ServerRefresh(userOk: bool, now: int, expiresAt: int)
    | Deliver                                          // the answer reaches the tab
    | Finally
    | Continue(i: nat)
    | SignIn(device: Option<Id>, now: int, expiresAt: int)
    | SignOut
    | Elsewhere(call: Call)                            // any other party's call to the server

  /** Other parties never hold this tab's tokens. */
  predicate Enabled(s: System, e: Event) {
    match e
    case Success(i) => i < |s.tab.requests| && s.tab.requests[i].phase == Sent
    case Denied(i) => i < |s.tab.requests| && s.tab.requests[i].phase == Sent
    case ServerRefresh(_, _, _) => s.tab.refreshing.Posted?
    case Deliver => s.tab.refreshing.Answered?
    case Finally => s.tab.refreshing.Resolved?
    case Continue(i) => i < |s.tab.requests| && s.tab.requests[i].phase.Settling?
    case Elsewhere(call) => call.RefreshCall? ==> call.jti !in s.mine
    case _ => true
  }

  /** The token the event makes the tab present to the server. */
  function Presented(s: System, e: Event): Option<nat>
    requires Enabled(s, e)
  {
    if e.Denied? then Unauthorized(s.tab, e.i).1 else None
  }

  function Next(s: System, e: Event): System
    requires Enabled(s, e)
  {
    match e
    case NewRequest => s.(tab := s.tab.(requests := s.tab.requests + [Request(1, false, Sent)]))
    case Success(i) => s.(tab := s.tab.(requests := s.tab.requests[i := s.tab.requests[i].(phase := Done)]))
    case Denied(i) => s.(tab := Unauthorized(s.tab, i).0)
    case ServerRefresh(userOk, now, expiresAt) =>
      var (server, result) := Refresh(s.server, s.tab.refreshing.jti, s.user, userOk, now, expiresAt);
      s.(server := server,
         tab := s.tab.(refreshing := Answered(if result.Ok? then Some(result.value) else None)),
         mine := if result.Ok? then s.mine + {result.value} else s.mine)
    case Deliver => s.(tab := Resolve(s.tab))
    case Finally => s.(tab := Clear(s.tab))
    case Continue(i) => s.(tab := Resume(s.tab, i))
    case SignIn(device, now, expiresAt) =>
      var fresh_ := |s.server.tokens|;
      s.(server := Login(s.server, s.user, device, now, expiresAt),
         tab := s.tab.(store := Some(fresh_)), mine := s.mine + {fresh_})
    case SignOut => s.(tab := s.tab.(store := None))
    case Elsewhere(call) => s.(server := TokenServer.Step(s.server, call))
  }

  ghost predicate IsRun(states: seq<System>, events: seq<Event>) {
    |states| == |events| + 1
    && forall k :: 0 <= k < |events| ==> Enabled(states[k], events[k]) && states[k + 1] == Next(states[k], events[k])
  }

  predicate Opened(s: System) {
    TokenServer.EMPTY == s.server && s.tab == Tab(None, Idle, []) && s.mine == {}
  }

  // ---- The composed invariant -----------------------------------------------------------------

  predicate Held(s: System, token: Option<nat>) { token.Some? ==> token.value in s.mine }

  predicate Unredeemed(s: System, token: Option<nat>) { token.Some? ==> token.value !in s.server.redeemed }

  /**
   * The stored token is unredeemed whenever the tab may present it; while its refresh is being
   * answered it may be the redeemed one, but then the fresh one is on its way to replace it.
   */
  ghost predicate TokensInvariant(s: System) {
    && TokenServer.Invariant(s.server)
    && (forall t :: t in s.mine ==> t < |s.server.tokens|)
    && Held(s, s.tab.store)
    && match s.tab.refreshing
       case Idle => Unredeemed(s, s.tab.store)
       case Posted(t) => t in s.mine && Unredeemed(s, Some(t)) && Unredeemed(s, s.tab.store)
       case Answered(a) => Held(s, a) && Unredeemed(s, a) && (a.None? ==> Unredeemed(s, s.tab.store))
       case Resolved(a) => Unredeemed(s, s.tab.store)
  }

  predicate RequestOk(r: Request) {
    match r.phase
    case Sent => r.sends == (if r.retried then 2 else 1)
    case Awaiting => r.retried && r.sends == 1
    case Settling(_) => r.retried && r.sends == 1
    case Done => 1 <= r.sends <= 2
  }

  ghost predicate RequestsInvariant(tab: Tab) {
    && (forall i :: 0 <= i < |tab.requests| ==> RequestOk(tab.requests[i]))
    && (tab.refreshing == Idle ==> forall i :: 0 <= i < |tab.requests| ==> tab.requests[i].phase != Awaiting)
  }

  lemma RedeemedGrowsBy(s: Server, jti: nat, user: Id, userOk: bool, now: int, expiresAt: int)
    ensures var (t, r) := Refresh(s, jti, user, userOk, now, expiresAt);
            && (r.Err? ==> t.redeemed == s.redeemed && |t.tokens| == |s.tokens|)
            && (r.Ok? ==> t.redeemed == s.redeemed + [jti] && r.value == |s.tokens| && |t.tokens| == |s.tokens| + 1)
  {
  }

  lemma NextKeepsTokens(s: System, e: Event)
    requires TokensInvariant(s) && Enabled(s, e)
    ensures TokensInvariant(Next(s, e))
  {
    hide TokenServer.Invariant, Refresh, Login;
    match e
    case ServerRefresh(userOk, now, expiresAt) =>
      var jti := s.tab.refreshing.jti;
      RefreshKeepsInvariant(s.server, jti, s.user, userOk, now, expiresAt);
      RedeemedGrowsBy(s.server, jti, s.user, userOk, now, expiresAt);
      FreshIsUnredeemed(s.server);
    case SignIn(device, now, expiresAt) =>
      LoginKeepsInvariant(s.server, s.user, device, now, expiresAt);
      LoginFacts(s.server, s.user, device, now, expiresAt);
      FreshIsUnredeemed(s.server);
    case Elsewhere(call) =>
      StepKeepsInvariant(s.server, call);
      ElsewhereFacts(s.server, call);
    case _ =>
  }

  lemma FreshIsUnredeemed(s: Server)
    requires TokenServer.Invariant(s)
    ensures |s.tokens| !in s.redeemed
  {
  }

  lemma LoginFacts(s: Server, user: Id, device: Option<Id>, now: int, expiresAt: int)
    ensures var t := Login(s, user, device, now, expiresAt);
            t.redeemed == s.redeemed && |t.tokens| == |s.tokens| + 1
  {
  }

  lemma ElsewhereFacts(s: Server, call: Call)
    ensures var t := TokenServer.Step(s, call);
            |s.tokens| <= |t.tokens|
            && (t.redeemed == s.redeemed || (call.RefreshCall? && t.redeemed == s.redeemed + [call.jti]))
  {
    if call.LoginCall? {
      LoginFacts(s, call.user, call.device, call.now, call.expiresAt);
    }
  }

  lemma NextKeepsRequests(s: System, e: Event)
    requires RequestsInvariant(s.tab) && Enabled(s, e)
    ensures RequestsInvariant(Next(s, e).tab)
  {
    hide Refresh, Login, TokenServer.Step;
  }

  lemma {:induction false} ReachableSystem(states: seq<System>, events: seq<Event>, k: nat)
    requires IsRun(states, events) && Opened(states[0]) && k < |states|
    ensures TokensInvariant(states[k]) && RequestsInvariant(states[k].tab)
  {
    if k > 0 {
      ReachableSystem(states, events, k - 1);
      NextKeepsTokens(states[k - 1], events[k - 1]);
      NextKeepsRequests(states[k - 1], events[k - 1]);
    }
  }

  /** Whatever the interleaving, the tab never presents a token that a rotation already consumed. */
  lemma NeverPresentsConsumedToken(states: seq<System>, events: seq<Event>, k: nat)
    requires IsRun(states, events) && Opened(states[0]) && k < |events|
    ensures var t := Presented(states[k], events[k]);
            t.Some? ==> t.value in states[k].mine && t.value !in states[k].server.redeemed
  {
    ReachableSystem(states, events, k);
  }

  /** ... nor is it consumed between being posted and being processed. */
  lemma PostedTokenStillUnredeemed(states: seq<System>, events: seq<Event>, k: nat)
    requires IsRun(states, events) && Opened(states[0]) && k < |states| && states[k].tab.refreshing.Posted?
    ensures states[k].tab.refreshing.jti !in states[k].server.redeemed
  {
    ReachableSystem(states, events, k);
  }

  /** Every request is sent at most twice, that is, re-sent at most once. */
  lemma ResentAtMostOnce(states: seq<System>, events: seq<Event>, k: nat, i: nat)
    requires IsRun(states, events) && Opened(states[0]) && k < |states| && i < |states[k].tab.requests|
    ensures 1 <= states[k].tab.requests[i].sends <= 2
  {
    ReachableSystem(states, events, k);
    assert RequestOk(states[k].tab.requests[i]);
  }

  // ---- Signing out ----------------------------------------------------------------------------

  /** A refresh is under way whose answer can still put tokens into the store. */
  predicate AnswerMayCome(s: System) {
    match s.tab.refreshing
    case Posted(t) => t < |s.server.tokens| && s.server.tokens[t].user == s.user && Usable(s.server.tokens[t])
    case Answered(a) => a.Some?
    case _ => false
  }

  predicate SignedOut(s: System) { s.tab.store.None? && !AnswerMayCome(s) }

  lemma SignedOutStep(s: System, e: Event)
    requires TokensInvariant(s) && SignedOut(s) && Enabled(s, e) && !e.SignIn?
    ensures SignedOut(Next(s, e)) && TokensInvariant(Next(s, e))
  {
    NextKeepsTokens(s, e);
    hide TokenServer.Invariant, Login, EnforceDeviceLimit;
    if e.Elsewhere? {
      DeadStaysUnusable(s.server, e.call);
      hide Refresh, TokenServer.Step;
    }
  }

  /** A row that cannot be used never becomes usable, and no row changes its user. */
  lemma DeadStaysUnusable(s: Server, call: Call)
    requires TokenServer.Invariant(s)
    ensures var t := TokenServer.Step(s, call);
            forall i :: 0 <= i < |s.tokens| ==> i < |t.tokens| && t.tokens[i].user == s.tokens[i].user
                                                 && (!Usable(s.tokens[i]) ==> !Usable(t.tokens[i]))
  {
    StepKeepsInvariant(s, call);
  }

  lemma {:induction false} SignedOutForGood(states: seq<System>, events: seq<Event>)
    requires IsRun(states, events) && TokensInvariant(states[0]) && SignedOut(states[0])
    requires forall k :: 0 <= k < |events| ==> !events[k].SignIn?
    ensures TokensInvariant(states[|events|]) && SignedOut(states[|events|])
  {
    hide TokensInvariant, SignedOut, Enabled, Next;
    var n := |events|;
    if n > 0 {
      assert forall k :: 0 <= k < n ==> states[..n][k] == states[k];
      SignedOutForGood(states[..n], events[..n - 1]);
      SignedOutStep(states[n - 1], events[n - 1]);
    }
  }

  /** An answer under way refills the store: at most a served post and its delivery away. */
  lemma AnswerRefills(s: System) returns (states: seq<System>, events: seq<Event>)
    requires AnswerMayCome(s)
    ensures IsRun(states, events) && states[0] == s && forall k :: 0 <= k < |events| ==> !events[k].SignIn?
    ensures states[|events|].tab.store.Some?
  {
    if s.tab.refreshing.Answered? {
      states, events := [s, Next(s, Deliver)], [Deliver];
    } else {
      var now := s.server.tokens[s.tab.refreshing.jti].expiresAt;
      var served := Next(s, ServerRefresh(true, now, now));
      assert served.tab.refreshing.Answered? && served.tab.refreshing.answer.Some?;
      states, events := [s, served, Next(served, Deliver)], [ServerRefresh(true, now, now), Deliver];
    }
  }

  /**
   * After a sign-out the store stays empty, in every continuation without a new sign-in, exactly when
   * no refresh was under way: the handler of an answer stores its tokens whatever happened meanwhile.
   */
  lemma SignOutLastsIff(s: System)
    requires TokensInvariant(s)
    ensures (forall states: seq<System>, events: seq<Event> ::
               IsRun(states, events) && states[0] == Next(s, SignOut) && (forall k :: 0 <= k < |events| ==> !events[k].SignIn?)
               ==> states[|events|].tab.store.None?)
            <==> !AnswerMayCome(s)
  {
    hide TokenServer.Invariant;
    NextKeepsTokens(s, SignOut);
    var out := Next(s, SignOut);
    assert AnswerMayCome(out) == AnswerMayCome(s);
    if AnswerMayCome(s) {
      var states, events := AnswerRefills(out);
    } else {
      forall states: seq<System>, events: seq<Event> | IsRun(states, events) && states[0] == out && (forall k :: 0 <= k < |events| ==> !events[k].SignIn?)
        ensures states[|events|].tab.store.None?
      {
        SignedOutForGood(states, events);
      }
    }
  }

  // ---- A refresh does its work ----------------------------------------------------------------

  /**
   * A 401 with a good token ends in a re-send: once the server has rotated it, the answer is delivered and
   * the promise cleared, every request that waited goes out again with the fresh token in the store.
   */
  lemma DeniedIsSentAgain(s: System, i: nat, now: int, expiresAt: int)
    requires TokensInvariant(s) && i < |s.tab.requests| && s.tab.requests[i].phase == Sent && !s.tab.requests[i].retried
    requires s.tab.refreshing == Idle && s.tab.store.Some?
    requires var t := s.server.tokens[s.tab.store.value]; t.user == s.user && Usable(t) && now <= t.expiresAt
    ensures var (a, b) := (Next(s, Denied(i)), ServerRefresh(true, now, expiresAt));
            && Presented(s, Denied(i)) == s.tab.store && a.tab.refreshing == Posted(s.tab.store.value)
            && var c := Next(a, b);
               c.tab.refreshing == Answered(Some(|s.server.tokens|))
               && var d := Next(c, Deliver);
                  d.tab.store == Some(|s.server.tokens|) && d.tab.refreshing.Resolved?
                  && var f := Next(d, Finally);
                     f.tab.refreshing == Idle && f.tab.requests[i].phase == Settling(Some(|s.server.tokens|))
                     && var g := Next(f, Continue(i));
                        g.tab.store == Some(|s.server.tokens|)
                        && g.tab.requests[i] == Request(s.tab.requests[i].sends + 1, true, Sent)
  {
  }

  /** While a refresh is under way a further 401 posts nothing and waits for it. */
  lemma OneRefreshAtATime(tab: Tab, i: nat)
    requires i < |tab.requests| && tab.requests[i].phase == Sent && !tab.requests[i].retried && tab.refreshing != Idle
    ensures var (t, posted) := Unauthorized(tab, i);
            posted == None && t.refreshing == tab.refreshing && t.store == tab.store && t.requests[i].phase == Awaiting
  {
  }

  /** Clearing the promise settles every waiter with its answer, and a refused one logs out. */
  lemma WaitersSettle(tab: Tab, i: nat)
    requires tab.refreshing.Resolved? && i < |tab.requests|
    ensures var t := Clear(tab);
            |t.requests| == |tab.requests| && t.store == tab.store
            && t.requests[i] == if tab.requests[i].phase == Awaiting then tab.requests[i].(phase := Settling(tab.refreshing.answer)) else tab.requests[i]
    ensures tab.requests[i].phase == Awaiting && tab.refreshing.answer.None? ==>
              var t := Resume(Clear(tab), i); t.store == None && t.requests[i].phase == Done
  {
  }

  /** A second 401 after the re-send, or one without a stored token, is final. */
  lemma DeniedForGood(tab: Tab, i: nat)
    requires i < |tab.requests| && tab.requests[i].phase == Sent
    requires tab.requests[i].retried || (tab.refreshing == Idle && tab.store.None?)
    ensures var (t, posted) := Unauthorized(tab, i);
            posted == None && t.requests[i].phase == Done && t.refreshing == tab.refreshing
  {
  }
}
