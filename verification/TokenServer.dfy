/**
 * The refresh-token table: login, rotating refresh with reuse detection, logout and password change.
 * A token is its jti, user and device; a jti is the slot of its row, which makes it fresh and unique.
 */
module TokenServer {
  import opened Options

  type Id = nat

  datatype Token = Token(
    user: Id, device: Option<Id>, expiresAt: int, active: bool, revokedAt: Option<int>)

  /** `login` and `redeemed` are history: the login each row descends from, and the jtis refreshed, in order. */
  datatype Tables = Server(tokens: seq<Token>, login: seq<nat>, redeemed: seq<nat>, logins: nat)

  type Server = s: Tables | |s.login| == |s.tokens| witness Server([], [], [], 0)

  const EMPTY: Server := Server([], [], [], 0)
  const MAX_DEVICES_PER_USER := 2

  datatype Error = TokenError | AuthenticationError

  function Revoked(t: Token, now: int): Token { t.(active := false, revokedAt := Some(now)) }

  // ---- UPDATE statements over the table -------------------------------------------------------

  predicate InChain(t: Token, user: Id, device: Option<Id>) { t.user == user && t.device == device && t.active }

  function RevokeDevice(tokens: seq<Token>, user: Id, device: Option<Id>, now: int): (r: seq<Token>)
    ensures |r| == |tokens|
  {
    seq(|tokens|, i requires 0 <= i < |tokens| =>
      if InChain(tokens[i], user, device) then Revoked(tokens[i], now) else tokens[i])
  }

  /** One jti of the user, or all of them. */
  function RevokeUser(tokens: seq<Token>, user: Id, only: Option<nat>, now: int): (r: seq<Token>)
    ensures |r| == |tokens|
  {
    seq(|tokens|, i requires 0 <= i < |tokens| =>
      if tokens[i].user == user && tokens[i].active && (only.None? || only.value == i)
      then Revoked(tokens[i], now) else tokens[i])
  }

  predicate Usable(t: Token) { t.active && t.revokedAt.None? }

  function DevicesOf(tokens: seq<Token>, user: Id): set<Id> {
    set i | 0 <= i < |tokens| && tokens[i].user == user && Usable(tokens[i]) && tokens[i].device.Some?
        :: tokens[i].device.value
  }

  function OldestOther(tokens: seq<Token>, user: Id, device: Id, from: nat): (oldest: Option<nat>)
    requires from <= |tokens|
    ensures oldest.Some? ==> oldest.value < |tokens|
    decreases |tokens| - from
  {
    if from == |tokens| then None
    else if tokens[from].user == user && Usable(tokens[from]) && tokens[from].device != Some(device) then Some(from)
    else OldestOther(tokens, user, device, from + 1)
  }

  function EnforceDeviceLimit(tokens: seq<Token>, user: Id, device: Option<Id>, now: int): (r: seq<Token>)
    ensures |r| == |tokens|
  {
    if device.None? then tokens
    else if |DevicesOf(tokens, user) + {device.value}| <= MAX_DEVICES_PER_USER then tokens
    else
      var oldest := OldestOther(tokens, user, device.value, 0);
      if oldest.Some?
      then tokens[oldest.value := Revoked(tokens[oldest.value], now)] else tokens
  }

  // ---- Logout: which tokens a request names ---------------------------------------------------

  /** The refresh token in a logout request: none, one that cannot be decoded, or one carrying a jti. */
  datatype Sent = NoToken | Garbled | Carries(jti: nat)

  datatype LogoutRequest = LogoutRequest(allDevices: bool, token: Sent)

  /** The one jti the request ends, or `None` for all of the user's: an expired token does not decode. */
  function Named(tokens: seq<Token>, request: LogoutRequest, now: int): Option<nat> {
    if request.allDevices then None
    else match request.token
      case NoToken => None
      case Garbled => None
      case Carries(jti) => if jti < |tokens| && tokens[jti].expiresAt < now then None else Some(jti)
  }

  // ---- The calls, each one atomic -------------------------------------------------------------

  function Issue(s: Server, user: Id, device: Option<Id>, login: nat, expiresAt: int): Server {
    s.(tokens := s.tokens + [Token(user, device, expiresAt, true, None)], login := s.login + [login])
  }

  function Login(s: Server, user: Id, device: Option<Id>, now: int, expiresAt: int): Server {
    var limited: Server := s.(tokens := EnforceDeviceLimit(s.tokens, user, device, now), logins := s.logins + 1);
    Issue(limited, user, device, s.logins, expiresAt)
  }

  /**
   * `jti` and `user` are what the signed token carries, with the expiry of its row; decoding refuses an
   * expired token before anything is looked up. `userOk` says the account is still active.
   */
  function Refresh(s: Server, jti: nat, user: Id, userOk: bool, now: int, expiresAt: int): (Server, Result<nat, Error>) {
    if jti >= |s.tokens| || s.tokens[jti].user != user then (s, Err(TokenError))
    else
      var t := s.tokens[jti];
      if t.expiresAt < now then (s, Err(TokenError))
      else if !Usable(t) then
        (s.(tokens := RevokeDevice(s.tokens, user, t.device, now)), Err(TokenError))
      else if !userOk then (s, Err(AuthenticationError))
      else
        var used: Server := s.(tokens := s.tokens[jti := Revoked(t, now)], redeemed := s.redeemed + [jti]);
        (Issue(used, user, t.device, s.login[jti], expiresAt), Ok(|s.tokens|))
  }

  datatype Call =
    | LoginCall(user: Id, device: Option<Id>, now: int, expiresAt: int)
    | RefreshCall(jti: nat, user: Id, userOk: bool, now: int, expiresAt: int)
    | LogoutCall(user: Id, request: LogoutRequest, now: int)
    | PasswordCall(user: Id, now: int)              // change_password and reset_password_admin

  function Step(s: Server, c: Call): Server {
    match c
    case LoginCall(user, device, now, expiresAt) => Login(s, user, device, now, expiresAt)
    case RefreshCall(jti, user, userOk, now, expiresAt) => Refresh(s, jti, user, userOk, now, expiresAt).0
    case LogoutCall(user, request, now) => s.(tokens := RevokeUser(s.tokens, user, Named(s.tokens, request, now), now))
    case PasswordCall(user, now) => s.(tokens := RevokeUser(s.tokens, user, None, now))
  }

  function Run(s: Server, calls: seq<Call>): Server {
    var n := |calls|;
    if n == 0 then s else Step(Run(s, calls[..n - 1]), calls[n - 1])
  }

  // ---- The service ----------------------------------------------------------------------------

  class AuthService {
    var tokens: seq<Token>
    ghost var loginOf: seq<nat>
    ghost var redeemed: seq<nat>
    ghost var logins: nat

    ghost function View(): Server
      requires Valid()
      reads this
    {
      Server(tokens, loginOf, redeemed, logins)
    }

    ghost predicate Valid()
      reads this
    {
      |loginOf| == |tokens|
    }

    constructor ()
      ensures Valid() && View() == EMPTY
    {
      tokens, loginOf, redeemed, logins := [], [], [], 0;
    }

    method IssueTokenPair(user: Id, device: Option<Id>, ghost login: nat, expiresAt: int) returns (jti: nat)
      requires Valid()
      modifies this
      ensures Valid() && View() == Issue(old(View()), user, device, login, expiresAt) && jti == old(|tokens|)
    {
      jti := |tokens|;
      tokens := tokens + [Token(user, device, expiresAt, true, None)];
      loginOf := loginOf + [login];
    }

    method LoginUser(user: Id, device: Option<Id>, now: int, expiresAt: int) returns (jti: nat)
      requires Valid()
      modifies this
      ensures Valid() && View() == Login(old(View()), user, device, now, expiresAt) && jti == old(|tokens|)
    {
      if device.Some? {
        if |DevicesOf(tokens, user) + {device.value}| > MAX_DEVICES_PER_USER {
          ghost var all := tokens;
          var i := 0;
          while i < |tokens|
            invariant i <= |tokens| && tokens == all
            invariant OldestOther(all, user, device.value, 0) == OldestOther(all, user, device.value, i)
          {
            if tokens[i].user == user && Usable(tokens[i]) && tokens[i].device != device {
              tokens := tokens[i := Revoked(tokens[i], now)];
              break;
            }
            i := i + 1;
          }
        }
      }
      assert tokens == EnforceDeviceLimit(old(tokens), user, device, now) && |tokens| == old(|tokens|);
      ghost var login := logins;
      logins := logins + 1;
      jti := IssueTokenPair(user, device, login, expiresAt);
    }

    method RefreshToken(jti: nat, user: Id, userOk: bool, now: int, expiresAt: int) returns (result: Result<nat, Error>)
      requires Valid()
      modifies this
      ensures Valid() && (View(), result) == Refresh(old(View()), jti, user, userOk, now, expiresAt)
      ensures result.Ok? <==> jti < old(|tokens|) && old(tokens)[jti].user == user && now <= old(tokens)[jti].expiresAt
                              && Usable(old(tokens)[jti]) && userOk
    {
      if jti >= |tokens| || tokens[jti].user != user {
        return Err(TokenError);
      }
      var row := tokens[jti];
      if row.expiresAt < now {
        return Err(TokenError);
      }
      if !row.active || row.revokedAt.Some? {
        tokens := RevokeDevice(tokens, user, row.device, now);
        return Err(TokenError);
      }
      if !userOk {
        return Err(AuthenticationError);
      }
      tokens := tokens[jti := row.(active := false, revokedAt := Some(now))];
      redeemed := redeemed + [jti];
      var next := IssueTokenPair(user, row.device, loginOf[jti], expiresAt);
      result := Ok(next);
    }

    method Logout(user: Id, request: LogoutRequest, now: int)
      requires Valid()
      modifies this`tokens
      ensures Valid() && View() == Step(old(View()), LogoutCall(user, request, now))
    {
      var jti: Option<nat> := None;
      if !request.allDevices && request.token != NoToken {
        match request.token {
          case Carries(sent) =>
            if !(sent < |tokens| && tokens[sent].expiresAt < now) {
              jti := Some(sent);
            }
          case _ =>
        }
      }
      tokens := RevokeUser(tokens, user, jti, now);
    }

    method ChangePassword(user: Id, now: int)
      requires Valid()
      modifies this`tokens
      ensures Valid() && View() == Step(old(View()), PasswordCall(user, now))
    {
      tokens := RevokeUser(tokens, user, None, now);
    }
  }

  // ---- What every run keeps -------------------------------------------------------------------

  ghost predicate WellFormed(s: Server) {
    && (forall i :: 0 <= i < |s.tokens| ==> (s.tokens[i].active <==> s.tokens[i].revokedAt.None?))
    && (forall i :: 0 <= i < |s.login| ==> s.login[i] < s.logins)
  }

  /** A login's rotation chain never holds two active tokens, and belongs to one user and device. */
  ghost predicate OneActivePerChain(s: Server) {
    forall i, j :: 0 <= i < j < |s.tokens| && s.login[i] == s.login[j] ==>
      s.tokens[i].user == s.tokens[j].user && s.tokens[i].device == s.tokens[j].device && !s.tokens[i].active
  }

  /** Each jti is redeemed at most once, and a redeemed row is dead. */
  ghost predicate RedeemedOnce(s: Server) {
    && (forall k :: 0 <= k < |s.redeemed| ==> s.redeemed[k] < |s.tokens| && !s.tokens[s.redeemed[k]].active)
    && (forall k, l :: 0 <= k < l < |s.redeemed| ==> s.redeemed[k] != s.redeemed[l])
  }

  ghost predicate Invariant(s: Server) { WellFormed(s) && OneActivePerChain(s) && RedeemedOnce(s) }

  /** The table only grows; rows keep user and device and never come back to life. */
  ghost predicate OnlyDies(before: seq<Token>, after: seq<Token>) {
    |before| <= |after|
    && forall i :: 0 <= i < |before| ==>
         after[i].user == before[i].user && after[i].device == before[i].device
         && (after[i] == before[i] || (!after[i].active && after[i].revokedAt.Some?))
  }

  lemma RevokingKeepsInvariant(s: Server, t: Server)
    requires Invariant(s) && t == s.(tokens := t.tokens) && |t.tokens| == |s.tokens| && OnlyDies(s.tokens, t.tokens)
    ensures Invariant(t)
  {
  }

  lemma LimitOnlyKills(tokens: seq<Token>, user: Id, device: Option<Id>, now: int)
    ensures OnlyDies(tokens, EnforceDeviceLimit(tokens, user, device, now))
    ensures |EnforceDeviceLimit(tokens, user, device, now)| == |tokens|
  {
  }

  lemma IssueKeepsInvariant(s: Server, user: Id, device: Option<Id>, expiresAt: int)
    requires Invariant(s)
    ensures var t := Issue(s.(logins := s.logins + 1), user, device, s.logins, expiresAt);
            Invariant(t) && OnlyDies(s.tokens, t.tokens)
  {
  }

  lemma LoginKeepsInvariant(s: Server, user: Id, device: Option<Id>, now: int, expiresAt: int)
    requires Invariant(s)
    ensures Invariant(Login(s, user, device, now, expiresAt))
    ensures OnlyDies(s.tokens, Login(s, user, device, now, expiresAt).tokens)
  {
    var limited: Server := s.(tokens := EnforceDeviceLimit(s.tokens, user, device, now));
    LimitOnlyKills(s.tokens, user, device, now);
    RevokingKeepsInvariant(s, limited);
    IssueKeepsInvariant(limited, user, device, expiresAt);
    hide Invariant, EnforceDeviceLimit;
  }

  lemma RefreshKeepsInvariant(s: Server, jti: nat, user: Id, userOk: bool, now: int, expiresAt: int)
    requires Invariant(s)
    ensures Invariant(Refresh(s, jti, user, userOk, now, expiresAt).0)
    ensures OnlyDies(s.tokens, Refresh(s, jti, user, userOk, now, expiresAt).0.tokens)
  {
    if jti < |s.tokens| && s.tokens[jti].user == user && !Usable(s.tokens[jti]) {
      RevokingKeepsInvariant(s, Refresh(s, jti, user, userOk, now, expiresAt).0);
    }
  }

  lemma StepKeepsInvariant(s: Server, c: Call)
    requires Invariant(s)
    ensures Invariant(Step(s, c)) && OnlyDies(s.tokens, Step(s, c).tokens)
  {
    match c
    case LoginCall(user, device, now, expiresAt) => LoginKeepsInvariant(s, user, device, now, expiresAt);
    case RefreshCall(jti, user, userOk, now, expiresAt) => RefreshKeepsInvariant(s, jti, user, userOk, now, expiresAt);
    case LogoutCall(_, _, _) => RevokingKeepsInvariant(s, Step(s, c));
    case PasswordCall(_, _) => RevokingKeepsInvariant(s, Step(s, c));
  }

  lemma {:induction false} ReachableInvariant(calls: seq<Call>)
    ensures Invariant(Run(EMPTY, calls))
  {
    var n := |calls|;
    if n > 0 {
      ReachableInvariant(calls[..n - 1]);
      StepKeepsInvariant(Run(EMPTY, calls[..n - 1]), calls[n - 1]);
    }
  }

  // ---- Reuse detection ------------------------------------------------------------------------

  ghost predicate ChainDead(s: Server, login: nat) {
    forall i :: 0 <= i < |s.tokens| && s.login[i] == login ==> !s.tokens[i].active
  }

  /**
   * Presenting a token that was already rotated is refused, and leaves its chain dead exactly when the
   * token has not expired, or nothing of the chain was alive before.
   */
  lemma ReuseKillsTheChain(s: Server, jti: nat, userOk: bool, now: int, expiresAt: int)
    requires Invariant(s) && jti in s.redeemed
    ensures var (t, r) := Refresh(s, jti, s.tokens[jti].user, userOk, now, expiresAt);
            r == Err(TokenError)
            && (ChainDead(t, s.login[jti]) <==> now <= s.tokens[jti].expiresAt || ChainDead(s, s.login[jti]))
  {
    var t := Refresh(s, jti, s.tokens[jti].user, userOk, now, expiresAt).0;
    if now <= s.tokens[jti].expiresAt {
      forall i | 0 <= i < |t.tokens| && t.login[i] == s.login[jti] ensures !t.tokens[i].active {
        assert s.tokens[i].user == s.tokens[jti].user && s.tokens[i].device == s.tokens[jti].device;
      }
    }
  }

  /** A failing input: a consumed token replayed after its expiry leaves its successor usable. */
  lemma ExpiredReplaySparesTheChain(user: Id, device: Option<Id>)
    ensures var calls := [LoginCall(user, device, 0, 100), RefreshCall(0, user, true, 90, 190), RefreshCall(0, user, true, 101, 201)];
            var t := Run(EMPTY, calls);
            |t.tokens| == 2 && t.redeemed == [0] && t.login == [0, 0] && Usable(t.tokens[1])
  {
    hide EnforceDeviceLimit;
    var c1, c2, c3 := LoginCall(user, device, 0, 100), RefreshCall(0, user, true, 90, 190), RefreshCall(0, user, true, 101, 201);
    LimitOnlyKills([], user, device, 0);
    assert [c1, c2, c3][..2] == [c1, c2] && [c1, c2][..1] == [c1] && [c1][..0] == [];
    assert Run(EMPTY, [c1]) == Step(EMPTY, c1);
    assert Run(EMPTY, [c1, c2]) == Step(Step(EMPTY, c1), c2);
    assert Run(EMPTY, [c1, c2, c3]) == Step(Step(Step(EMPTY, c1), c2), c3);
    var one := Step(EMPTY, c1);
    assert one.tokens == [Token(user, device, 100, true, None)] && one.login == [0];
  }

  /** No row past `old_` slots descends from the login. */
  ghost predicate NoNewRow(s: Server, login: nat, old_: nat) {
    old_ <= |s.login| && forall i :: old_ <= i < |s.login| ==> s.login[i] != login
  }

  lemma DeadChainStep(s: Server, login: nat, c: Call, old_: nat)
    requires Invariant(s) && ChainDead(s, login) && login < s.logins && NoNewRow(s, login, old_)
    ensures var t := Step(s, c);
            ChainDead(t, login) && login < t.logins && NoNewRow(t, login, old_)
  {
    StepKeepsInvariant(s, c);
    if c.LoginCall? {
      LimitOnlyKills(s.tokens, c.user, c.device, c.now);
    }
    hide EnforceDeviceLimit;
  }

  /** A dead chain stays dead: none of its tokens is ever redeemed again and it gains no new one. */
  lemma {:induction false} DeadChainStaysDead(s: Server, login: nat, calls: seq<Call>)
    requires Invariant(s) && ChainDead(s, login) && login < s.logins
    ensures var t := Run(s, calls);
            Invariant(t) && ChainDead(t, login) && login < t.logins && NoNewRow(t, login, |s.tokens|)
  {
    hide Invariant, ChainDead, NoNewRow, Step;
    var n := |calls|;
    if n > 0 {
      DeadChainStaysDead(s, login, calls[..n - 1]);
      StepKeepsInvariant(Run(s, calls[..n - 1]), calls[n - 1]);
      DeadChainStep(Run(s, calls[..n - 1]), login, calls[n - 1], |s.tokens|);
    } else {
      NothingNewYet(s, login);
    }
  }

  lemma NothingNewYet(s: Server, login: nat)
    requires Invariant(s)
    ensures NoNewRow(s, login, |s.tokens|)
  {
  }

  /** A logout ends exactly the tokens its request names and touches no row of anybody else. */
  lemma LogoutEndsExactly(s: Server, user: Id, request: LogoutRequest, now: int, i: nat)
    requires i < |s.tokens|
    ensures var t, only := Step(s, LogoutCall(user, request, now)), Named(s.tokens, request, now);
            var named := s.tokens[i].user == user && (only.None? || only.value == i);
            && |t.tokens| == |s.tokens|
            && (Usable(t.tokens[i]) <==> Usable(s.tokens[i]) && !named)
            && (!named ==> t.tokens[i] == s.tokens[i])
  {
  }

  /**
   * A logout that does not ask for all devices spares the user's other sessions exactly when it sends a
   * token that decodes: a missing, garbled or expired one signs every device out.
   */
  lemma OtherDevicesSparedIff(s: Server, user: Id, token: Sent, now: int, other: nat)
    requires other < |s.tokens| && s.tokens[other].user == user && Usable(s.tokens[other])
    requires token != Carries(other)
    ensures Usable(Step(s, LogoutCall(user, LogoutRequest(false, token), now)).tokens[other])
            <==> token.Carries? && !(token.jti < |s.tokens| && s.tokens[token.jti].expiresAt < now)
  {
  }

  /** A failing input: signing out on one device with a token that expired ends the other device too. */
  lemma ExpiredLogoutEndsEveryDevice(user: Id, phone: Id, tablet: Id)
    ensures var s := Server([Token(user, Some(phone), 10, true, None), Token(user, Some(tablet), 100, true, None)], [0, 1], [], 2);
            var t := Step(s, LogoutCall(user, LogoutRequest(false, Carries(0)), 11));
            Usable(s.tokens[1]) && !Usable(t.tokens[1])
  {
  }

  /** What a logout ended can only be refused: presenting it mints nothing. */
  lemma LoggedOutTokenIsRefused(s: Server, user: Id, request: LogoutRequest, now: int, jti: nat, userOk: bool, at: int, expiresAt: int)
    requires jti < |s.tokens| && s.tokens[jti].user == user
    requires Named(s.tokens, request, now) in {None, Some(jti)}
    ensures var t := Step(s, LogoutCall(user, request, now));
            var (u, r) := Refresh(t, jti, user, userOk, at, expiresAt);
            r == Err(TokenError) && |u.tokens| == |t.tokens| && u.redeemed == t.redeemed
  {
    LogoutEndsExactly(s, user, request, now, jti);
  }

  ghost predicate NoneUsable(s: Server, user: Id) {
    forall i :: 0 <= i < |s.tokens| && s.tokens[i].user == user ==> !Usable(s.tokens[i])
  }

  lemma NoneUsableStep(s: Server, user: Id, c: Call)
    requires NoneUsable(s, user) && !(c.LoginCall? && c.user == user)
    ensures NoneUsable(Step(s, c), user)
  {
    if c.LoginCall? {
      LimitOnlyKills(s.tokens, c.user, c.device, c.now);
      hide EnforceDeviceLimit;
    }
  }

  /** After a password change no token of the user is usable, on any device, until the next login. */
  lemma {:induction false} PasswordChangeRevokesAll(s: Server, user: Id, now: int, later: seq<Call>)
    requires forall c :: c in later ==> !(c.LoginCall? && c.user == user)
    ensures NoneUsable(Run(Step(s, PasswordCall(user, now)), later), user)
  {
    var n := |later|;
    if n > 0 {
      hide NoneUsable, Step;
      PasswordChangeRevokesAll(s, user, now, later[..n - 1]);
      assert later[n - 1] in later;
      NoneUsableStep(Run(Step(s, PasswordCall(user, now)), later[..n - 1]), user, later[n - 1]);
    }
  }

  // ---- Exactly when a refresh succeeds, and what it does --------------------------------------

  /** A refresh succeeds exactly for an unexpired, usable row of the user whose account is active. */
  lemma RefreshSucceedsIff(s: Server, jti: nat, user: Id, userOk: bool, now: int, expiresAt: int)
    ensures Refresh(s, jti, user, userOk, now, expiresAt).1.Ok?
            <==> jti < |s.tokens| && s.tokens[jti].user == user && now <= s.tokens[jti].expiresAt
                 && s.tokens[jti].active && s.tokens[jti].revokedAt.None? && userOk
  {
  }

  /** Success swaps the presented row for one fresh row of the same user, device and login, and nothing else. */
  lemma RefreshSwapsOneRow(s: Server, jti: nat, user: Id, now: int, expiresAt: int)
    requires Refresh(s, jti, user, true, now, expiresAt).1.Ok?
    ensures var (t, r) := Refresh(s, jti, user, true, now, expiresAt);
            && r.value == |s.tokens| && |t.tokens| == |s.tokens| + 1
            && t.tokens[r.value] == Token(user, s.tokens[jti].device, expiresAt, true, None) && t.login[r.value] == s.login[jti]
            && !t.tokens[jti].active && t.tokens[jti].revokedAt == Some(now)
            && (forall i :: 0 <= i < |s.tokens| && i != jti ==> t.tokens[i] == s.tokens[i])
            && t.redeemed == s.redeemed + [jti] && t.logins == s.logins
  {
  }

  /**
   * A refused refresh changes something only for reuse: of an unexpired, dead row of the user it revokes
   * exactly the user's active rows on that device.
   */
  lemma RefusalRevokesOnlyOnReuse(s: Server, jti: nat, user: Id, userOk: bool, now: int, expiresAt: int)
    requires Refresh(s, jti, user, userOk, now, expiresAt).1.Err?
    ensures var (t, r) := Refresh(s, jti, user, userOk, now, expiresAt);
            var reuse := jti < |s.tokens| && s.tokens[jti].user == user && now <= s.tokens[jti].expiresAt
                         && (!s.tokens[jti].active || s.tokens[jti].revokedAt.Some?);
            && |t.tokens| == |s.tokens| && t.redeemed == s.redeemed && t.login == s.login && t.logins == s.logins
            && (!reuse ==> t == s)
            && (forall i :: 0 <= i < |s.tokens| ==>
                  t.tokens[i] == if reuse && s.tokens[i].user == user && s.tokens[i].device == s.tokens[jti].device && s.tokens[i].active
                                 then s.tokens[i].(active := false, revokedAt := Some(now)) else s.tokens[i])
            && (r.error == AuthenticationError
                <==> jti < |s.tokens| && s.tokens[jti].user == user && now <= s.tokens[jti].expiresAt && !reuse && !userOk)
  {
  }

  /** A login gives a token that refreshes until it expires, as long as the account is active. */
  lemma LoginThenRefresh(s: Server, user: Id, device: Option<Id>, now: int, expiresAt: int, userOk: bool, at: int, later: int)
    ensures var t := Login(s, user, device, now, expiresAt);
            Refresh(t, |s.tokens|, user, userOk, at, later).1.Ok? <==> userOk && at <= expiresAt
    ensures var t := Login(s, user, device, now, expiresAt);
            t.tokens[|s.tokens|] == Token(user, device, expiresAt, true, None) && t.login[|s.tokens|] == s.logins
  {
    LimitOnlyKills(s.tokens, user, device, now);
  }

  /** The account is inactive at every refresh of the user, who does not log in. */
  predicate LockedOut(calls: seq<Call>, user: Id) {
    forall c :: c in calls ==> (c.LoginCall? ==> c.user != user) && (c.RefreshCall? && c.user == user ==> !c.userOk)
  }

  /** No row from slot `old_` on belongs to the user, and no redemption from `redemptions` on is of such a row. */
  ghost predicate NothingGained(s: Server, user: Id, old_: nat, redemptions: nat) {
    && old_ <= |s.tokens| && redemptions <= |s.redeemed|
    && (forall i :: old_ <= i < |s.tokens| ==> s.tokens[i].user != user)
    && (forall k :: redemptions <= k < |s.redeemed| ==> s.redeemed[k] < |s.tokens| && s.tokens[s.redeemed[k]].user != user)
  }

  lemma LockedOutStep(s: Server, c: Call, user: Id, old_: nat, redemptions: nat)
    requires Invariant(s) && NothingGained(s, user, old_, redemptions)
    requires (c.LoginCall? ==> c.user != user) && (c.RefreshCall? && c.user == user ==> !c.userOk)
    ensures NothingGained(Step(s, c), user, old_, redemptions)
  {
    StepKeepsInvariant(s, c);
    if c.LoginCall? {
      LimitOnlyKills(s.tokens, c.user, c.device, c.now);
    }
    hide EnforceDeviceLimit, Invariant;
  }

  /** A locked-out user gains no token and redeems none, over any run. */
  lemma {:induction false} LockedOutGainsNothing(s: Server, user: Id, calls: seq<Call>)
    requires Invariant(s) && LockedOut(calls, user)
    ensures Invariant(Run(s, calls)) && NothingGained(Run(s, calls), user, |s.tokens|, |s.redeemed|)
  {
    var n := |calls|;
    if n > 0 {
      assert calls[n - 1] in calls && forall c :: c in calls[..n - 1] ==> c in calls;
      LockedOutGainsNothing(s, user, calls[..n - 1]);
      StepKeepsInvariant(Run(s, calls[..n - 1]), calls[n - 1]);
      LockedOutStep(Run(s, calls[..n - 1]), calls[n - 1], user, |s.tokens|, |s.redeemed|);
      hide Invariant, NothingGained, Step;
    }
  }

  // ---- The device cap -------------------------------------------------------------------------

  /** A usable row of the user on another device, or on none. */
  predicate OnOtherDevice(t: Token, user: Id, device: Id) {
    t.user == user && t.active && t.revokedAt.None? && t.device != Some(device)
  }

  lemma {:induction false} OldestOtherIs(tokens: seq<Token>, user: Id, device: Id, from: nat)
    requires from <= |tokens|
    ensures var o := OldestOther(tokens, user, device, from);
            && (o.Some? ==> from <= o.value && OnOtherDevice(tokens[o.value], user, device)
                            && forall i :: from <= i < o.value ==> !OnOtherDevice(tokens[i], user, device))
            && (o.None? ==> forall i :: from <= i < |tokens| ==> !OnOtherDevice(tokens[i], user, device))
    decreases |tokens| - from
  {
    if from < |tokens| && !OnOtherDevice(tokens[from], user, device) {
      OldestOtherIs(tokens, user, device, from + 1);
    }
  }

  /**
   * A login names no device, or its user has at most two devices with it: nobody is signed out. Otherwise
   * exactly one row is revoked, the user's oldest usable one off this device.
   */
  lemma LoginRevokesTheOldest(tokens: seq<Token>, user: Id, device: Option<Id>, now: int)
    ensures var r := EnforceDeviceLimit(tokens, user, device, now);
            var devices := set i | 0 <= i < |tokens| && tokens[i].user == user && tokens[i].active && tokens[i].revokedAt.None?
                                     && tokens[i].device.Some? :: tokens[i].device.value;
            if device.None? || |devices + {device.value}| <= 2 then r == tokens
            else r == tokens || exists k :: 0 <= k < |tokens| && OnOtherDevice(tokens[k], user, device.value)
                                            && (forall i :: 0 <= i < k ==> !OnOtherDevice(tokens[i], user, device.value))
                                            && r == tokens[k := tokens[k].(active := false, revokedAt := Some(now))]
    ensures device.Some? && |DevicesOf(tokens, user) + {device.value}| > 2 ==>
              (EnforceDeviceLimit(tokens, user, device, now) == tokens
               ==> forall i :: 0 <= i < |tokens| ==> !OnOtherDevice(tokens[i], user, device.value))
  {
    if device.Some? {
      OldestOtherIs(tokens, user, device.value, 0);
      var devices := set i | 0 <= i < |tokens| && tokens[i].user == user && tokens[i].active && tokens[i].revokedAt.None?
                               && tokens[i].device.Some? :: tokens[i].device.value;
      assert devices == DevicesOf(tokens, user);
    }
  }
}
