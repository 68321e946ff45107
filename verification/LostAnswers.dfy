/**
 * The rotation protocol when answers do get lost: the connection drops, or the page is reloaded while
 * a refresh is under way. The token store survives a reload. A consumed token is then presented again
 * exactly when the answer that would have replaced it was cut off.
 */
module LostAnswers {
  import opened Options
  import opened TokenServer
  import opened ClientTab

  /**
   * History beside the system: the token last posted, posts the server may still serve although nobody
   * waits for their answer, and tokens whose answer was cut off after the server had rotated them.
   */
  datatype World = World(system: System, asked: Option<nat>, orphans: set<nat>, stranded: set<nat>)

  datatype Happening =
    | Usual(e: ClientTab.Event)
    | ConnectionLost                                     // the pending refresh fails in the tab
    | Reload                                             // the page starts anew on the persisted store
    | OrphanServed(jti: nat, userOk: bool, now: int, expiresAt: int)

  predicate Possible(w: World, h: Happening) {
    match h
    case Usual(e) => Enabled(w.system, e)
    case ConnectionLost => w.system.tab.refreshing.Posted? || w.system.tab.refreshing.Answered?
    case Reload => true
    case OrphanServed(jti, _, _, _) => jti in w.orphans
  }

  /** The tokens an interruption strands: the one just rotated, when its answer is on the way. */
  function CutOff(w: World): set<nat> {
    if w.system.tab.refreshing.Answered? && w.system.tab.refreshing.answer.Some? && w.asked.Some?
    then {w.asked.value} else {}
  }

  /** The posts an interruption leaves without a listener. */
  function Abandoned(w: World): set<nat> {
    if w.system.tab.refreshing.Posted? then {w.system.tab.refreshing.jti} else {}
  }

  function Interrupted(w: World, tab: Tab): World {
    w.(system := w.system.(tab := tab), orphans := w.orphans + Abandoned(w), stranded := w.stranded + CutOff(w))
  }

  function After(w: World, h: Happening): World
    requires Possible(w, h)
  {
    var tab := w.system.tab;
    match h
    case Usual(e) =>
      var posted := Presented(w.system, e);
      w.(system := Next(w.system, e), asked := if posted.Some? then posted else w.asked)
    case ConnectionLost => Interrupted(w, tab.(refreshing := Answered(None)))
    case Reload => Interrupted(w, Tab(tab.store, Idle, []))
    case OrphanServed(jti, userOk, now, expiresAt) =>
      var (server, result) := Refresh(w.system.server, jti, w.system.user, userOk, now, expiresAt);
      w.(system := w.system.(server := server),
         orphans := w.orphans - {jti},
         stranded := if result.Ok? then w.stranded + {jti} else w.stranded)
  }

  ghost predicate IsHistory(worlds: seq<World>, happenings: seq<Happening>) {
    |worlds| == |happenings| + 1
    && forall k :: 0 <= k < |happenings| ==> Possible(worlds[k], happenings[k]) && worlds[k + 1] == After(worlds[k], happenings[k])
  }

  predicate Begins(w: World) {
    Opened(w.system) && w.asked == None && w.orphans == {} && w.stranded == {}
  }

  // ---- The invariant --------------------------------------------------------------------------

  /** If the token was consumed, then because its answer was cut off. */
  predicate Explained(w: World, token: Option<nat>) {
    token.Some? && token.value in w.system.server.redeemed ==> token.value in w.stranded
  }

  ghost predicate Owned(w: World) {
    && (forall t :: t in w.system.mine ==> t < |w.system.server.tokens| && w.system.server.tokens[t].user == w.system.user)
    && Held(w.system, w.system.tab.store)
    && (forall t :: t in w.orphans ==> t in w.system.mine)
    && (forall t :: t in w.stranded ==> t in w.system.server.redeemed)
  }

  /** Only between rotation and delivery may the store hold a consumed token that is not stranded. */
  ghost predicate StoreExplained(w: World) {
    var store := w.system.tab.store;
    match w.system.tab.refreshing
    case Idle => Explained(w, store)
    case Posted(t) => w.asked == Some(t) && t in w.system.mine && Explained(w, w.asked) && Explained(w, store)
    case Answered(None) => Explained(w, store)
    case Answered(Some(fresh_)) =>
      && fresh_ in w.system.mine && Explained(w, Some(fresh_))
      && w.asked.Some? && w.asked.value in w.system.server.redeemed
      && (store == w.asked || Explained(w, store))
    case Resolved(_) => Explained(w, store)
  }

  ghost predicate Sound(w: World) {
    TokenServer.Invariant(w.system.server) && Owned(w) && StoreExplained(w)
  }

  /** A refresh call appends at most one token, of the same user, and redeems at most the token presented. */
  lemma RefreshFacts(s: Server, jti: nat, user: Id, userOk: bool, now: int, expiresAt: int)
    requires TokenServer.Invariant(s)
    ensures var (t, r) := Refresh(s, jti, user, userOk, now, expiresAt);
            && TokenServer.Invariant(t) && OnlyDies(s.tokens, t.tokens)
            && (forall x :: x in t.redeemed <==> x in s.redeemed || (r.Ok? && x == jti))
            && (r.Err? ==> |t.tokens| == |s.tokens|)
            && (r.Ok? ==> r.value == |s.tokens| && |t.tokens| == |s.tokens| + 1
                          && t.tokens[r.value].user == user && r.value !in t.redeemed)
  {
    RefreshKeepsInvariant(s, jti, user, userOk, now, expiresAt);
    RedeemedGrowsBy(s, jti, user, userOk, now, expiresAt);
    FreshIsUnredeemed(s);
  }

  lemma LoginMakesOne(s: Server, user: Id, device: Option<Id>, now: int, expiresAt: int)
    requires TokenServer.Invariant(s)
    ensures var t := Login(s, user, device, now, expiresAt);
            && TokenServer.Invariant(t) && OnlyDies(s.tokens, t.tokens) && |t.tokens| == |s.tokens| + 1
            && t.redeemed == s.redeemed && t.tokens[|s.tokens|].user == user && |s.tokens| !in t.redeemed
  {
    LoginKeepsInvariant(s, user, device, now, expiresAt);
    LoginFacts(s, user, device, now, expiresAt);
    FreshIsUnredeemed(s);
  }

  lemma UsualKeepsSound(w: World, e: ClientTab.Event)
    requires Sound(w) && Enabled(w.system, e)
    ensures Sound(After(w, Usual(e)))
  {
    hide TokenServer.Invariant, Refresh, Login;
    var s := w.system;
    match e
    case ServerRefresh(userOk, now, expiresAt) =>
      RefreshFacts(s.server, s.tab.refreshing.jti, s.user, userOk, now, expiresAt);
    case SignIn(device, now, expiresAt) => LoginMakesOne(s.server, s.user, device, now, expiresAt);
    case Elsewhere(call) =>
      StepKeepsInvariant(s.server, call);
      ElsewhereFacts(s.server, call);
    case _ =>
  }

  lemma KeepsSound(w: World, h: Happening)
    requires Sound(w) && Possible(w, h)
    ensures Sound(After(w, h))
  {
    hide TokenServer.Invariant, Refresh;
    match h
    case Usual(e) => UsualKeepsSound(w, e);
    case OrphanServed(jti, userOk, now, expiresAt) =>
      RefreshFacts(w.system.server, jti, w.system.user, userOk, now, expiresAt);
    case _ =>
  }

  lemma {:induction false} ReachableSound(worlds: seq<World>, happenings: seq<Happening>, k: nat)
    requires IsHistory(worlds, happenings) && Begins(worlds[0]) && k < |worlds|
    ensures Sound(worlds[k])
  {
    if k > 0 {
      ReachableSound(worlds, happenings, k - 1);
      KeepsSound(worlds[k - 1], happenings[k - 1]);
    }
  }

  // ---- When a consumed token comes back -------------------------------------------------------

  /** The tab presents a consumed token exactly when that token's answer was cut off before. */
  lemma ConsumedIffStranded(worlds: seq<World>, happenings: seq<Happening>, k: nat, e: ClientTab.Event)
    requires IsHistory(worlds, happenings) && Begins(worlds[0]) && k < |happenings| && happenings[k] == Usual(e)
    ensures var t := Presented(worlds[k].system, e);
            t.Some? ==> (t.value in worlds[k].system.server.redeemed <==> t.value in worlds[k].stranded)
  {
    ReachableSound(worlds, happenings, k);
  }

  /**
   * It costs the login: the server refuses the stranded token, and ends its chain unless the token has
   * expired meanwhile.
   */
  lemma StrandedTokenEndsTheLogin(worlds: seq<World>, happenings: seq<Happening>, k: nat, e: ClientTab.Event,
                                  userOk: bool, now: int, expiresAt: int)
    requires IsHistory(worlds, happenings) && Begins(worlds[0]) && k < |happenings| && happenings[k] == Usual(e)
    requires var t := Presented(worlds[k].system, e); t.Some? && t.value in worlds[k].stranded
    ensures var s, t := worlds[k].system, Presented(worlds[k].system, e).value;
            var (server, result) := Refresh(s.server, t, s.user, userOk, now, expiresAt);
            && t < |s.server.tokens| && result == Err(TokenError)
            && (ChainDead(server, s.server.login[t])
                <==> now <= s.server.tokens[t].expiresAt || ChainDead(s.server, s.server.login[t]))
  {
    ReachableSound(worlds, happenings, k);
    var s, t := worlds[k].system, Presented(worlds[k].system, e).value;
    ReuseKillsTheChain(s.server, t, userOk, now, expiresAt);
  }

  lemma SignedIn(user: Id)
    ensures Login(TokenServer.EMPTY, user, None, 0, 100) == Server([Token(user, None, 100, true, None)], [0], [], 1)
  {
  }

  lemma Rotated(user: Id)
    ensures Refresh(Server([Token(user, None, 100, true, None)], [0], [], 1), 0, user, true, 1, 100)
            == (Server([Token(user, None, 100, false, Some(1)), Token(user, None, 100, true, None)], [0, 0], [0], 1), Ok(1))
  {
    var s: Server := Server([Token(user, None, 100, true, None)], [0], [], 1);
    var t: Server := Refresh(s, 0, user, true, 1, 100).0;
    assert t.tokens == [Token(user, None, 100, false, Some(1)), Token(user, None, 100, true, None)];
    assert t.login == [0, 0] && t.redeemed == [0] && t.logins == 1;
    assert Refresh(s, 0, user, true, 1, 100).1 == Ok(1);
  }

  /** A failing history: the page is reloaded after the server rotated and before the answer arrived. */
  lemma ReloadStrandsTheToken(user: Id) returns (worlds: seq<World>, happenings: seq<Happening>)
    ensures IsHistory(worlds, happenings) && Begins(worlds[0]) && |happenings| == 7 && happenings[6] == Usual(Denied(0))
    ensures Presented(worlds[6].system, Denied(0)) == Some(0) && 0 in worlds[6].system.server.redeemed
  {
    hide Login, Refresh;
    SignedIn(user);
    Rotated(user);
    var one := Server([Token(user, None, 100, true, None)], [0], [], 1);
    var two := Server([Token(user, None, 100, false, Some(1)), Token(user, None, 100, true, None)], [0, 0], [0], 1);
    var fresh_, pending := Request(1, false, Sent), Request(1, true, Awaiting);
    var w0 := World(System(TokenServer.EMPTY, Tab(None, Idle, []), {}, user), None, {}, {});
    var w1 := World(System(one, Tab(Some(0), Idle, []), {0}, user), None, {}, {});
    var w2 := w1.(system := w1.system.(tab := Tab(Some(0), Idle, [fresh_])));
    var w3 := w2.(system := w2.system.(tab := Tab(Some(0), Posted(0), [pending])), asked := Some(0));
    var w4 := w3.(system := System(two, Tab(Some(0), Answered(Some(1)), [pending]), {0, 1}, user));
    var w5 := w4.(system := w4.system.(tab := Tab(Some(0), Idle, [])), stranded := {0});
    var w6 := w5.(system := w5.system.(tab := Tab(Some(0), Idle, [fresh_])));
    var w7 := After(w6, Usual(Denied(0)));
    assert After(w0, Usual(SignIn(None, 0, 100))) == w1;
    assert After(w1, Usual(NewRequest)) == w2;
    assert After(w2, Usual(Denied(0))) == w3;
    assert After(w3, Usual(ServerRefresh(true, 1, 100))) == w4;
    assert After(w4, Reload) == w5;
    assert After(w5, Usual(NewRequest)) == w6;
    worlds := [w0, w1, w2, w3, w4, w5, w6, w7];
    happenings := [Usual(SignIn(None, 0, 100)), Usual(NewRequest), Usual(Denied(0)), Usual(ServerRefresh(true, 1, 100)),
                   Reload, Usual(NewRequest), Usual(Denied(0))];
    hide After, Possible;
  }
}
