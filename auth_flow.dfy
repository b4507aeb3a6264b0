/** `authenticate()` of auth_flow.py: a straight-line decision procedure over the configuration
    store. The server (login, password change, token creation, the signed self check), the service
    logs, the clock and the random generator are oracles collected in a `Service`; every call made
    to them and every configuration write is recorded as an `Event`. */
module AuthFlow {
  import opened Wrappers
  import Text
  import Config
  import Utils
  import BhUtils

  /** What `authenticate()` ends with: True, False, process exit (the service is down when a signed
      request is made) or an exception. */
  datatype Outcome = Authenticated | Rejected | Exited | Crashed

  /** The external effects, in the order they happen. */
  datatype Event =
    | AccessChecked(dispatch: BhUtils.Dispatch, ok: bool)
    | LoginSent(username: string, secret: string, loginReply: Utils.LoginReply)
    | LogsRead
    | SecretChangeSent(userId: string, bearer: string, current: string, next: Option<string>, status: int)
    | TokenRequested(bearer: string, userId: string, name: string, tokenReply: Utils.TokenReply)
    | Wrote(key: string, value: string)

  /** The oracles. The server's state changes as the flow goes on (a password change makes a new
      password valid), so each answer also depends on the moment `n` of the call, the number of
      events before it. `login(n, username, secret)` is the reply of `POST /api/v2/login`;
      `changeSecret(n, userId, bearer, current, next)` the status of `PUT .../secret`;
      `createToken(n, bearer, userId, name)` the reply of `POST /api/v2/tokens`; `selfStatus(n, request)`
      the status of a signed `GET /api/v2/self`; `probe` the liveness probe; `clock(n)` the time at
      moment `n`; `draws(i)` the i-th draw of `random.choices`. */
  datatype Service = Service(
    prims: BhUtils.Primitives,
    probe: Option<int>,
    selfStatus: (nat, BhUtils.SignedRequest) -> int,
    login: (nat, string, string) -> Utils.LoginReply,
    changeSecret: (nat, string, string, string, Option<string>) -> int,
    createToken: (nat, string, string, string) -> Utils.TokenReply,
    logs: string,
    clock: nat -> string,
    draws: nat -> string)

  /** Every draw has 16 characters of the alphabet, and the rejection loop always stops. */
  ghost predicate ServiceValid(s: Service) {
    && (forall i: nat :: Utils.IsDraw(s.draws(i)))
    && (forall from: nat :: Utils.StrongDrawAhead(s.draws, from))
  }

  /** The process environment, the `.env` lines, the events so far and the number of random draws. */
  datatype World = World(environ: map<string, string>, envFile: Option<seq<string>>, events: seq<Event>, drawn: nat)

  const TokenName := "BHTK Token"

  // ---------------------------------------------------------------------------------------------
  // The steps, as functions of the world

  /** `update_env_variables(key, value)`. */
  function Write(w: World, key: string, value: string): World {
    World(w.environ[key := value], Some(Config.UpsertFile(w.envFile, key, value)), w.events + [Wrote(key, value)], w.drawn)
  }

  /** `generate_password()`: the next draw that passes the policy. */
  ghost function Generate(s: Service, w: World): (string, World)
    requires ServiceValid(s)
  {
    var k := Utils.NextStrong(s.draws, w.drawn);
    (s.draws(k), w.(drawn := k + 1))
  }

  /** `login_get_token("POST", "/api/v2/login", username, secret)`. */
  function Login(s: Service, w: World, username: string, secret: string): (Utils.LoginResult, World) {
    var reply := s.login(|w.events|, username, secret);
    var w1 := w.(events := w.events + [LoginSent(username, secret, reply)]);
    var w2 := if reply.data.Some? then Write(w1, "MUST_CHANGE_PASSWORD", Utils.MustChangeFlag(reply.data.value.authExpired)) else w1;
    (Utils.InterpretLogin(reply), w2)
  }

  /** `verify_access()` against the current environment. */
  function CheckAccess(s: Service, w: World): (BhUtils.Dispatch, bool, World) {
    var d := BhUtils.Dispatched(s.prims, w.environ, s.probe, s.clock(|w.events|), "GET", BhUtils.SelfEndpoint,
                                Some(Config.BuildUrl(w.environ) + BhUtils.SelfEndpoint), None);
    var ok := d.Sent? && s.selfStatus(|w.events|, d.request) == 200;
    (d, ok, w.(events := w.events + [AccessChecked(d, ok)]))
  }

  /** `change_password("PUT", ".../{userId}/secret", bearer, current, next)`. */
  function ChangeSecret(s: Service, w: World, userId: string, bearer: string, current: string, next: Option<string>): (int, World) {
    var status := s.changeSecret(|w.events|, userId, bearer, current, next);
    (status, w.(events := w.events + [SecretChangeSent(userId, bearer, current, next, status)]))
  }

  /** How a final `verify_access()` ends `authenticate()`. */
  function FinalOutcome(d: BhUtils.Dispatch, ok: bool): Outcome {
    if d.Exited? then Exited
    else if d.NoKey? then Crashed
    else if ok then Authenticated
    else Rejected
  }

  // ---------------------------------------------------------------------------------------------
  // The flow, stage by stage

  /** The whole of `authenticate()`. */
  ghost function Flow(s: Service, w: World): (Outcome, World)
    requires ServiceValid(s)
  {
    var env := Config.LoadEnvVariables(w.environ);
    if Text.Truthy(env.tokenId) && Text.Truthy(env.tokenKey) then
      var (d, ok, w1) := CheckAccess(s, w);
      if ok then (Authenticated, w1)
      else if d.Exited? then (Exited, w1)
      else if d.NoKey? then (Crashed, w1)
      else FromCredentials(s, w1)
    else
      FromCredentials(s, w)
  }

  /** From "Get credentials" on: the "none" sentinel, the credentials test and the first login. */
  ghost function FromCredentials(s: Service, w: World): (Outcome, World)
    requires ServiceValid(s)
  {
    var username := Config.Get(w.environ, "BHE_USERNAME");
    var configured := Config.Get(w.environ, "BHE_PASSWORD");
    var (password, w1) :=
      if configured == Some("none") then
        var (generated, wg) := Generate(s, w);
        (Some(generated), Write(wg, "BHE_PASSWORD", generated))
      else (configured, w);
    if !Text.Truthy(username) || !Text.Truthy(password) then (Rejected, w1)
    else
      var (result, w2) := Login(s, w1, username.value, password.value);
      if Utils.LoggedIn(result) then FromSession(s, w2, username.value, password.value, result)
      else Recover(s, w2, username.value, password.value)
  }

  /** The first login failed: fall back on the initial password from the logs, move from it to the
      configured password, and log in again. */
  ghost function Recover(s: Service, w: World, username: string, password: string): (Outcome, World)
    requires ServiceValid(s)
  {
    var initial := Utils.RecoveredPassword(s.logs);
    var w1 := w.(events := w.events + [LogsRead]);
    if !Text.Truthy(initial) || initial == Some(Utils.NoPasswordFound) then (Rejected, w1)
    else
      var w2 := Write(w1, "BHE_INITIAL_PASSWORD", initial.value);
      var (r2, w3) := Login(s, w2, username, initial.value);
      if !Utils.LoggedIn(r2) then (Rejected, w3)
      else MoveToConfigured(s, w3, username, password, initial.value, r2)
  }

  /** Logged in with the initial password: change it to the configured one and log in again. */
  ghost function MoveToConfigured(s: Service, w: World, username: string, password: string, initial: string, session: Utils.LoginResult): (Outcome, World)
    requires ServiceValid(s) && Utils.LoggedIn(session)
  {
    var (status, w1) := ChangeSecret(s, w, session.userId, session.sessionToken, initial, Some(password));
    if status != 200 then (Rejected, w1)
    else
      var w2 := Write(w1, "BHE_PASSWORD", password);
      var (r3, w3) := Login(s, w2, username, password);
      if !Utils.LoggedIn(r3) then (Rejected, w3)
      else FromSession(s, w3, username, password, r3)
  }

  /** Logged in: change the password first when the server demands it, then provision a token. */
  ghost function FromSession(s: Service, w: World, username: string, password: string, result: Utils.LoginResult): (Outcome, World)
    requires ServiceValid(s) && Utils.LoggedIn(result)
  {
    if result.mustChange then ForcedChange(s, w, username, password, result)
    else Provision(s, w, result.userId, result.sessionToken)
  }

  /** The forced change: a fresh password unless BHE_NEW_PASSWORD holds a usable one, then the change,
      the two writes, and a login with the new password. */
  ghost function ForcedChange(s: Service, w: World, username: string, password: string, result: Utils.LoginResult): (Outcome, World)
    requires ServiceValid(s) && Utils.LoggedIn(result)
  {
    var (next, w1) := ChooseNext(s, w, password);
    ChangeToNext(s, w1, username, password, next, result)
  }

  /** The password the forced change moves to: BHE_NEW_PASSWORD, unless it is "none" or the current
      password, in which case a fresh one is generated and persisted to BHE_NEW_PASSWORD. */
  ghost function ChooseNext(s: Service, w: World, password: string): (Option<string>, World)
    requires ServiceValid(s)
  {
    var configured := Config.Get(w.environ, "BHE_NEW_PASSWORD");
    if Utils.NeedsFreshPassword(configured, Some(password)) then
      var (generated, wg) := Generate(s, w);
      (Some(generated), Write(wg, "BHE_NEW_PASSWORD", generated))
    else (configured, w)
  }

  /** The change to the chosen password, the two writes, and a login with the new password. */
  function ChangeToNext(s: Service, w: World, username: string, password: string, next: Option<string>, result: Utils.LoginResult): (Outcome, World)
    requires Utils.LoggedIn(result)
  {
    var (status, w1) := ChangeSecret(s, w, result.userId, result.sessionToken, password, next);
    if status != 200 then (Rejected, w1)
    else if next.None? then (Crashed, w1)
    else
      var w2 := Write(Write(w1, "BHE_PASSWORD", next.value), "BHE_NEW_PASSWORD", "none");
      var (r, w3) := Login(s, w2, username, next.value);
      if !Utils.LoggedIn(r) then (Rejected, w3)
      else Provision(s, w3, r.userId, r.sessionToken)
  }

  /** Token creation, `update_env_api_key`, and the final `verify_access()`. */
  function Provision(s: Service, w: World, userId: string, bearer: string): (Outcome, World) {
    var reply := s.createToken(|w.events|, bearer, userId, TokenName);
    var w1 := w.(events := w.events + [TokenRequested(bearer, userId, TokenName, reply)]);
    if reply.data.None? then (Rejected, w1)
    else
      var w2 := Write(Write(w1, "BHE_TOKEN_ID", reply.data.value.id), "BHE_TOKEN_KEY", reply.data.value.key);
      var (d, ok, w3) := CheckAccess(s, w2);
      (FinalOutcome(d, ok), w3)
  }

  // ---------------------------------------------------------------------------------------------
  // What each path does

  /** Events are only ever appended. */
  predicate Extends(w: World, w2: World) {
    w.events <= w2.events
  }

  /** A login writes MUST_CHANGE_PASSWORD at most; every other variable keeps its value. */
  lemma LoginKeeps(s: Service, w: World, username: string, secret: string, key: string)
    requires key != "MUST_CHANGE_PASSWORD"
    ensures Config.Get(Login(s, w, username, secret).1.environ, key) == Config.Get(w.environ, key)
    ensures Extends(w, Login(s, w, username, secret).1)
    ensures Login(s, w, username, secret).1.drawn == w.drawn
  {
  }

  /** Provisioning writes BHE_TOKEN_ID and BHE_TOKEN_KEY at most. */
  lemma ProvisionKeeps(s: Service, w: World, userId: string, bearer: string, key: string)
    requires key != "BHE_TOKEN_ID" && key != "BHE_TOKEN_KEY"
    ensures Config.Get(Provision(s, w, userId, bearer).1.environ, key) == Config.Get(w.environ, key)
    ensures Extends(w, Provision(s, w, userId, bearer).1)
  {
  }

  /** The token shortcut: when both token fields are non-empty and the self check passes, the result
      is True, with no login and no configuration write. */
  lemma ExistingTokensShortcut(s: Service, w: World)
    requires ServiceValid(s)
    requires Text.Truthy(Config.Get(w.environ, "BHE_TOKEN_ID")) && Text.Truthy(Config.Get(w.environ, "BHE_TOKEN_KEY"))
    requires CheckAccess(s, w).1
    ensures Flow(s, w).0 == Authenticated
    ensures Flow(s, w).1.environ == w.environ && Flow(s, w).1.envFile == w.envFile
    ensures Flow(s, w).1.events == w.events + [AccessChecked(CheckAccess(s, w).0, true)]
  {
    var env := Config.LoadEnvVariables(w.environ);
    Config.LoadReads(w.environ, Config.TokenId);
    Config.LoadReads(w.environ, Config.TokenKey);
    assert Text.Truthy(env.tokenId) && Text.Truthy(env.tokenKey);
    var (d, ok, w1) := CheckAccess(s, w);
    assert Flow(s, w) == (Authenticated, w1);
  }

  /** Without both token fields the shortcut is skipped entirely: no self check is made first. */
  lemma MissingTokensSkipShortcut(s: Service, w: World)
    requires ServiceValid(s)
    requires !Text.Truthy(Config.Get(w.environ, "BHE_TOKEN_ID")) || !Text.Truthy(Config.Get(w.environ, "BHE_TOKEN_KEY"))
    ensures Flow(s, w) == FromCredentials(s, w)
  {
    var env := Config.LoadEnvVariables(w.environ);
    Config.LoadReads(w.environ, Config.TokenId);
    Config.LoadReads(w.environ, Config.TokenKey);
  }

  /** Each stage only appends events. */
  lemma {:induction false} FromSessionExtends(s: Service, w: World, username: string, password: string, result: Utils.LoginResult)
    requires ServiceValid(s) && Utils.LoggedIn(result)
    ensures Extends(w, FromSession(s, w, username, password, result).1)
  {
    if result.mustChange {
      var (next, w1) := ChooseNext(s, w, password);
      ChangeToNextExtends(s, w1, username, password, next, result);
    } else {
      ProvisionKeeps(s, w, result.userId, result.sessionToken, "");
    }
  }

  lemma ChangeToNextExtends(s: Service, w: World, username: string, password: string, next: Option<string>, result: Utils.LoginResult)
    requires Utils.LoggedIn(result)
    ensures Extends(w, ChangeToNext(s, w, username, password, next, result).1)
  {
    var (status, w1) := ChangeSecret(s, w, result.userId, result.sessionToken, password, next);
    if status == 200 && next.Some? {
      var w2 := Write(Write(w1, "BHE_PASSWORD", next.value), "BHE_NEW_PASSWORD", "none");
      var (r, w3) := Login(s, w2, username, next.value);
      if Utils.LoggedIn(r) {
        ProvisionKeeps(s, w3, r.userId, r.sessionToken, "");
      }
    }
  }

  lemma MoveToConfiguredExtends(s: Service, w: World, username: string, password: string, initial: string, session: Utils.LoginResult)
    requires ServiceValid(s) && Utils.LoggedIn(session)
    ensures Extends(w, MoveToConfigured(s, w, username, password, initial, session).1)
  {
    var (status, w1) := ChangeSecret(s, w, session.userId, session.sessionToken, initial, Some(password));
    if status == 200 {
      var w2 := Write(w1, "BHE_PASSWORD", password);
      var (r3, w3) := Login(s, w2, username, password);
      if Utils.LoggedIn(r3) {
        FromSessionExtends(s, w3, username, password, r3);
      }
    }
  }

  lemma RecoverExtends(s: Service, w: World, username: string, password: string)
    requires ServiceValid(s)
    ensures Extends(w, Recover(s, w, username, password).1)
  {
    var initial := Utils.RecoveredPassword(s.logs);
    var w1 := w.(events := w.events + [LogsRead]);
    if Text.Truthy(initial) && initial != Some(Utils.NoPasswordFound) {
      var w2 := Write(w1, "BHE_INITIAL_PASSWORD", initial.value);
      var (r2, w3) := Login(s, w2, username, initial.value);
      if Utils.LoggedIn(r2) {
        MoveToConfiguredExtends(s, w3, username, password, initial.value, r2);
      }
    }
  }

  /** After the first login, the flow goes on from the session or with recovery, and only appends. */
  lemma AfterFirstLoginExtends(s: Service, w: World, username: string, password: string, result: Utils.LoginResult)
    requires ServiceValid(s)
    ensures Extends(w, (if Utils.LoggedIn(result) then FromSession(s, w, username, password, result)
                        else Recover(s, w, username, password)).1)
  {
    if Utils.LoggedIn(result) {
      FromSessionExtends(s, w, username, password, result);
    } else {
      RecoverExtends(s, w, username, password);
    }
  }

  /** The "none" sentinel: a generated password that passes the policy is persisted to BHE_PASSWORD
      as the very first effect, before any login, and the first login uses it. */
  lemma NoneSentinelPersistedFirst(s: Service, w: World)
    requires ServiceValid(s)
    requires Config.Get(w.environ, "BHE_PASSWORD") == Some("none")
    ensures var generated := Generate(s, w).0;
      && Utils.MeetsPolicy(generated) && generated != "none"
      && |FromCredentials(s, w).1.events| > |w.events|
      && FromCredentials(s, w).1.events[|w.events|] == Wrote("BHE_PASSWORD", generated)
    ensures var generated := Generate(s, w).0;
      var username := Config.Get(w.environ, "BHE_USERNAME");
      Text.Truthy(username) ==>
        && |FromCredentials(s, w).1.events| > |w.events| + 1
        && FromCredentials(s, w).1.events[|w.events| + 1] == LoginSent(username.value, generated, s.login(|w.events| + 1, username.value, generated))
  {
    var (generated, wg) := Generate(s, w);
    Utils.PolicyExcludesSentinel(generated);
    var w1 := Write(wg, "BHE_PASSWORD", generated);
    assert w1.events == w.events + [Wrote("BHE_PASSWORD", generated)];
    var username := Config.Get(w.environ, "BHE_USERNAME");
    if Text.Truthy(username) {
      var (result, w2) := Login(s, w1, username.value, generated);
      var login := LoginSent(username.value, generated, s.login(|w.events| + 1, username.value, generated));
      assert w2.events[..|w.events| + 2] == w.events + [Wrote("BHE_PASSWORD", generated), login];
      var r := FromCredentials(s, w).1;
      assert r == (if Utils.LoggedIn(result) then FromSession(s, w2, username.value, generated, result)
                   else Recover(s, w2, username.value, generated)).1;
      AfterFirstLoginExtends(s, w2, username.value, generated, result);
      assert r.events[..|w2.events|] == w2.events;
      assert r.events[|w.events|] == w2.events[|w.events|];
      assert r.events[|w.events| + 1] == w2.events[|w.events| + 1];
    }
  }

  /** Missing credentials: without a username, or without a password that is neither empty nor the
      sentinel, the result is False and no login is attempted; at most the sentinel's write happens. */
  lemma MissingCredentials(s: Service, w: World)
    requires ServiceValid(s)
    requires !Text.Truthy(Config.Get(w.environ, "BHE_USERNAME"))
          || (!Text.Truthy(Config.Get(w.environ, "BHE_PASSWORD")) && Config.Get(w.environ, "BHE_PASSWORD") != Some("none"))
    ensures FromCredentials(s, w).0 == Rejected
    ensures Extends(w, FromCredentials(s, w).1)
    ensures forall i :: |w.events| <= i < |FromCredentials(s, w).1.events| ==> FromCredentials(s, w).1.events[i].Wrote?
  {
    if Config.Get(w.environ, "BHE_PASSWORD") == Some("none") {
      var (generated, wg) := Generate(s, w);
      assert Text.Truthy(Some(generated)) by {
        Utils.PolicyExcludesSentinel(generated);
      }
    }
  }

  /** Recovery is unavailable when the logs give no password, an empty one or "No password found":
      the result is False after reading the logs, with nothing written and no token requested. */
  lemma RecoveryUnavailable(s: Service, w: World, username: string, password: string)
    requires ServiceValid(s)
    requires var initial := Utils.RecoveredPassword(s.logs);
      !Text.Truthy(initial) || initial == Some(Utils.NoPasswordFound)
    ensures Recover(s, w, username, password) == (Rejected, w.(events := w.events + [LogsRead]))
  {
  }

  /** The recovery path opens with the logs read, the initial password persisted, and a login with
      it; when that login fails, the result is False. */
  lemma RecoveryOpening(s: Service, w: World, username: string, password: string, initial: string)
    requires ServiceValid(s)
    requires Utils.RecoveredPassword(s.logs) == Some(initial) && initial != "" && initial != Utils.NoPasswordFound
    ensures var r := Recover(s, w, username, password).1;
      && |r.events| >= |w.events| + 3
      && r.events[|w.events|] == LogsRead
      && r.events[|w.events| + 1] == Wrote("BHE_INITIAL_PASSWORD", initial)
      && r.events[|w.events| + 2] == LoginSent(username, initial, s.login(|w.events| + 2, username, initial))
    ensures !Utils.LoggedIn(Utils.InterpretLogin(s.login(|w.events| + 2, username, initial))) ==>
      Recover(s, w, username, password).0 == Rejected
  {
    var w1 := w.(events := w.events + [LogsRead]);
    var w2 := Write(w1, "BHE_INITIAL_PASSWORD", initial);
    var (r2, w3) := Login(s, w2, username, initial);
    assert Recover(s, w, username, password) ==
      if Utils.LoggedIn(r2) then MoveToConfigured(s, w3, username, password, initial, r2) else (Rejected, w3);
    OpeningEvents(s, w, username, initial);
    var r := Recover(s, w, username, password).1;
    if Utils.LoggedIn(r2) {
      MoveToConfiguredExtends(s, w3, username, password, initial, r2);
    }
    assert r.events[..|w3.events|] == w3.events;
  }

  /** The three events that open a recovery with `initial`. */
  lemma OpeningEvents(s: Service, w: World, username: string, initial: string)
    ensures var w3 := Login(s, Write(w.(events := w.events + [LogsRead]), "BHE_INITIAL_PASSWORD", initial), username, initial).1;
      && |w3.events| >= |w.events| + 3
      && w3.events[|w.events|] == LogsRead
      && w3.events[|w.events| + 1] == Wrote("BHE_INITIAL_PASSWORD", initial)
      && w3.events[|w.events| + 2] == LoginSent(username, initial, s.login(|w.events| + 2, username, initial))
  {
    var w2 := Write(w.(events := w.events + [LogsRead]), "BHE_INITIAL_PASSWORD", initial);
    var w3 := Login(s, w2, username, initial).1;
    assert w2.events == w.events + [LogsRead, Wrote("BHE_INITIAL_PASSWORD", initial)];
    var sent := LoginSent(username, initial, s.login(|w.events| + 2, username, initial));
    assert w3.events[..|w2.events| + 1] == w2.events + [sent];
  }

  /** Moving to the configured password: the change goes from the initial password to the
      configured one with the session's credentials; any status but 200 gives False and ends the
      flow; after a 200 the configured password is persisted and used to log in again, and a failed
      login gives False. */
  lemma MoveToConfiguredPath(s: Service, w: World, username: string, password: string, initial: string, session: Utils.LoginResult)
    requires ServiceValid(s) && Utils.LoggedIn(session)
    ensures var k := |w.events|;
      var status := s.changeSecret(k, session.userId, session.sessionToken, initial, Some(password));
      var (outcome, r) := MoveToConfigured(s, w, username, password, initial, session);
      && |r.events| > k
      && r.events[k] == SecretChangeSent(session.userId, session.sessionToken, initial, Some(password), status)
      && (status != 200 ==> outcome == Rejected && |r.events| == k + 1)
      && (status == 200 ==>
            && |r.events| > k + 2
            && r.events[k + 1] == Wrote("BHE_PASSWORD", password)
            && r.events[k + 2] == LoginSent(username, password, s.login(k + 2, username, password))
            && (!Utils.LoggedIn(Utils.InterpretLogin(s.login(k + 2, username, password))) ==> outcome == Rejected))
  {
    var k := |w.events|;
    var (status, w1) := ChangeSecret(s, w, session.userId, session.sessionToken, initial, Some(password));
    assert w1.events[k] == SecretChangeSent(session.userId, session.sessionToken, initial, Some(password), status);
    var r := MoveToConfigured(s, w, username, password, initial, session).1;
    if status == 200 {
      var w2 := Write(w1, "BHE_PASSWORD", password);
      var (r3, w3) := Login(s, w2, username, password);
      assert w3.events[k + 1] == Wrote("BHE_PASSWORD", password);
      assert w3.events[k + 2] == LoginSent(username, password, s.login(k + 2, username, password));
      if Utils.LoggedIn(r3) {
        FromSessionExtends(s, w3, username, password, r3);
      }
      assert r.events[..|w3.events|] == w3.events;
      assert r.events[k] == w3.events[k];
      assert r.events[k + 1] == w3.events[k + 1];
      assert r.events[k + 2] == w3.events[k + 2];
    }
  }

  /** After a successful login with the initial password, recovery continues by moving to the
      configured password with that login's session, the change being the first event after the
      login and its writes. */
  lemma RecoveryContinues(s: Service, w: World, username: string, password: string, initial: string)
    requires ServiceValid(s)
    requires Utils.RecoveredPassword(s.logs) == Some(initial) && initial != "" && initial != Utils.NoPasswordFound
    requires Utils.LoggedIn(Utils.InterpretLogin(s.login(|w.events| + 2, username, initial)))
    ensures var reply := s.login(|w.events| + 2, username, initial);
      var session := Utils.InterpretLogin(reply);
      var v := Login(s, Write(w.(events := w.events + [LogsRead]), "BHE_INITIAL_PASSWORD", initial), username, initial).1;
      && |v.events| == |w.events| + 3 + (if reply.data.Some? then 1 else 0)
      && Recover(s, w, username, password) == MoveToConfigured(s, v, username, password, initial, session)
  {
    var w1 := w.(events := w.events + [LogsRead]);
    var w2 := Write(w1, "BHE_INITIAL_PASSWORD", initial);
    var (r2, w3) := Login(s, w2, username, initial);
    assert Recover(s, w, username, password) == MoveToConfigured(s, w3, username, password, initial, r2);
  }

  /** Choosing the next password: a fresh one, which passes the policy and is persisted to
      BHE_NEW_PASSWORD as the only effect, exactly when BHE_NEW_PASSWORD is "none" or the current
      password; otherwise BHE_NEW_PASSWORD as it is, with no effect. */
  lemma ChooseNextPath(s: Service, w: World, password: string)
    requires ServiceValid(s)
    ensures var configured := Config.Get(w.environ, "BHE_NEW_PASSWORD");
      var (next, w1) := ChooseNext(s, w, password);
      Utils.NeedsFreshPassword(configured, Some(password)) ==>
        && next.Some? && Utils.MeetsPolicy(next.value) && next.value != "none"
        && w1.events == w.events + [Wrote("BHE_NEW_PASSWORD", next.value)]
        && w1.environ == w.environ["BHE_NEW_PASSWORD" := next.value]
    ensures var configured := Config.Get(w.environ, "BHE_NEW_PASSWORD");
      !Utils.NeedsFreshPassword(configured, Some(password)) ==> ChooseNext(s, w, password) == (configured, w)
  {
    var (generated, wg) := Generate(s, w);
    Utils.PolicyExcludesSentinel(generated);
  }

  /** The change itself: it goes from the current password to the chosen one with the session's
      user id and token; a status other than 200 gives False at once, with BHE_PASSWORD untouched;
      a 200 with no password to move to crashes. */
  lemma ChangeToNextSent(s: Service, w: World, username: string, password: string, next: Option<string>, result: Utils.LoginResult)
    requires Utils.LoggedIn(result)
    ensures var status := s.changeSecret(|w.events|, result.userId, result.sessionToken, password, next);
      var (outcome, r) := ChangeToNext(s, w, username, password, next, result);
      && |r.events| > |w.events|
      && r.events[|w.events|] == SecretChangeSent(result.userId, result.sessionToken, password, next, status)
      && (status != 200 ==> outcome == Rejected && r.environ == w.environ && |r.events| == |w.events| + 1)
      && (status == 200 && next.None? ==> outcome == Crashed)
  {
    var (status, w1) := ChangeSecret(s, w, result.userId, result.sessionToken, password, next);
    assert w1.events[|w.events|] == SecretChangeSent(result.userId, result.sessionToken, password, next, status);
    ChangeToNextExtends(s, w, username, password, next, result);
    var r := ChangeToNext(s, w, username, password, next, result).1;
    if status == 200 && next.Some? {
      var w2 := Write(Write(w1, "BHE_PASSWORD", next.value), "BHE_NEW_PASSWORD", "none");
      var (relogin, w3) := Login(s, w2, username, next.value);
      if Utils.LoggedIn(relogin) {
        ProvisionKeeps(s, w3, relogin.userId, relogin.sessionToken, "");
      }
      assert r.events[..|w1.events|] == w1.events;
    }
    assert r.events[|w.events|] == w1.events[|w.events|];
  }

  /** After an accepted change, BHE_PASSWORD holds the new password and BHE_NEW_PASSWORD is "none",
      whatever the login and provisioning that follow do. */
  lemma ChangeToNextWrites(s: Service, w: World, username: string, password: string, next: Option<string>, result: Utils.LoginResult)
    requires Utils.LoggedIn(result)
    requires s.changeSecret(|w.events|, result.userId, result.sessionToken, password, next) == 200 && next.Some?
    ensures var r := ChangeToNext(s, w, username, password, next, result).1;
      Config.Get(r.environ, "BHE_PASSWORD") == next && Config.Get(r.environ, "BHE_NEW_PASSWORD") == Some("none")
  {
    var (status, w1) := ChangeSecret(s, w, result.userId, result.sessionToken, password, next);
    var w2 := Write(Write(w1, "BHE_PASSWORD", next.value), "BHE_NEW_PASSWORD", "none");
    var (relogin, w3) := Login(s, w2, username, next.value);
    LoginKeeps(s, w2, username, next.value, "BHE_PASSWORD");
    LoginKeeps(s, w2, username, next.value, "BHE_NEW_PASSWORD");
    if Utils.LoggedIn(relogin) {
      ProvisionKeeps(s, w3, relogin.userId, relogin.sessionToken, "BHE_PASSWORD");
      ProvisionKeeps(s, w3, relogin.userId, relogin.sessionToken, "BHE_NEW_PASSWORD");
    }
  }

  /** Provisioning: a reply without "data" gives False with nothing written; otherwise the new id
      and key are persisted and the result is the final self check, signed with the new key. */
  lemma ProvisionPath(s: Service, w: World, userId: string, bearer: string)
    ensures var reply := s.createToken(|w.events|, bearer, userId, TokenName);
      reply.data.None? ==>
        Provision(s, w, userId, bearer) == (Rejected, w.(events := w.events + [TokenRequested(bearer, userId, TokenName, reply)]))
    ensures var reply := s.createToken(|w.events|, bearer, userId, TokenName);
      var r := Provision(s, w, userId, bearer).1;
      reply.data.Some? ==>
        && Config.Get(r.environ, "BHE_TOKEN_ID") == Some(reply.data.value.id)
        && Config.Get(r.environ, "BHE_TOKEN_KEY") == Some(reply.data.value.key)
    ensures var reply := s.createToken(|w.events|, bearer, userId, TokenName);
      var (outcome, r) := Provision(s, w, userId, bearer);
      reply.data.Some? && Utils.IsUp(s.probe) ==>
        && |r.events| > 0
        && r.events[|r.events| - 1].AccessChecked?
        && r.events[|r.events| - 1].dispatch.Sent?
        && r.events[|r.events| - 1].dispatch.request.signature ==
             BhUtils.Signature(s.prims, reply.data.value.key, "GET", BhUtils.SelfEndpoint,
                               r.events[|r.events| - 1].dispatch.request.requestDate, None)
        && (outcome == Authenticated <==> s.selfStatus(|r.events| - 1, r.events[|r.events| - 1].dispatch.request) == 200)
        && (outcome == Authenticated || outcome == Rejected)
  {
  }

  /** True is only ever returned right after a self check that the server accepted. */
  predicate EndsVerified(r: (Outcome, World)) {
    r.0 == Authenticated ==>
      && |r.1.events| > 0
      && r.1.events[|r.1.events| - 1].AccessChecked?
      && r.1.events[|r.1.events| - 1].ok
      && r.1.events[|r.1.events| - 1].dispatch.Sent?
  }

  lemma ProvisionEndsVerified(s: Service, w: World, userId: string, bearer: string)
    ensures EndsVerified(Provision(s, w, userId, bearer))
  {
  }

  lemma ChangeToNextEndsVerified(s: Service, w: World, username: string, password: string, next: Option<string>, result: Utils.LoginResult)
    requires Utils.LoggedIn(result)
    ensures EndsVerified(ChangeToNext(s, w, username, password, next, result))
  {
    var (status, w1) := ChangeSecret(s, w, result.userId, result.sessionToken, password, next);
    if status == 200 && next.Some? {
      var w2 := Write(Write(w1, "BHE_PASSWORD", next.value), "BHE_NEW_PASSWORD", "none");
      var (r, w3) := Login(s, w2, username, next.value);
      if Utils.LoggedIn(r) {
        ProvisionEndsVerified(s, w3, r.userId, r.sessionToken);
      }
    }
  }

  lemma FromSessionEndsVerified(s: Service, w: World, username: string, password: string, result: Utils.LoginResult)
    requires ServiceValid(s) && Utils.LoggedIn(result)
    ensures EndsVerified(FromSession(s, w, username, password, result))
  {
    if result.mustChange {
      var (next, w1) := ChooseNext(s, w, password);
      ChangeToNextEndsVerified(s, w1, username, password, next, result);
    } else {
      ProvisionEndsVerified(s, w, result.userId, result.sessionToken);
    }
  }

  lemma MoveToConfiguredEndsVerified(s: Service, w: World, username: string, password: string, initial: string, session: Utils.LoginResult)
    requires ServiceValid(s) && Utils.LoggedIn(session)
    ensures EndsVerified(MoveToConfigured(s, w, username, password, initial, session))
  {
    var (status, w1) := ChangeSecret(s, w, session.userId, session.sessionToken, initial, Some(password));
    if status == 200 {
      var w2 := Write(w1, "BHE_PASSWORD", password);
      var (r3, w3) := Login(s, w2, username, password);
      if Utils.LoggedIn(r3) {
        FromSessionEndsVerified(s, w3, username, password, r3);
      }
    }
  }

  lemma {:induction false} FromCredentialsEndsVerified(s: Service, w: World)
    requires ServiceValid(s)
    ensures EndsVerified(FromCredentials(s, w))
  {
    var username := Config.Get(w.environ, "BHE_USERNAME");
    var configured := Config.Get(w.environ, "BHE_PASSWORD");
    var (password, w1) :=
      if configured == Some("none") then
        var (generated, wg) := Generate(s, w);
        (Some(generated), Write(wg, "BHE_PASSWORD", generated))
      else (configured, w);
    if Text.Truthy(username) && Text.Truthy(password) {
      var (result, w2) := Login(s, w1, username.value, password.value);
      if Utils.LoggedIn(result) {
        FromSessionEndsVerified(s, w2, username.value, password.value, result);
      } else {
        var initial := Utils.RecoveredPassword(s.logs);
        var v1 := w2.(events := w2.events + [LogsRead]);
        if Text.Truthy(initial) && initial != Some(Utils.NoPasswordFound) {
          var v2 := Write(v1, "BHE_INITIAL_PASSWORD", initial.value);
          var (r2, v3) := Login(s, v2, username.value, initial.value);
          if Utils.LoggedIn(r2) {
            MoveToConfiguredEndsVerified(s, v3, username.value, password.value, initial.value, r2);
          }
        }
      }
    }
  }

  /** `authenticate()` returns True only right after a self check that the server accepted. */
  lemma AuthenticatedEndsVerified(s: Service, w: World)
    requires ServiceValid(s)
    ensures EndsVerified(Flow(s, w))
  {
    var env := Config.LoadEnvVariables(w.environ);
    if Text.Truthy(env.tokenId) && Text.Truthy(env.tokenKey) {
      var (d, ok, w1) := CheckAccess(s, w);
      FromCredentialsEndsVerified(s, w1);
    } else {
      FromCredentialsEndsVerified(s, w);
    }
  }

  // ---------------------------------------------------------------------------------------------
  // `sleep` as written

  /** `authenticate()` as written: `sleep` is never imported into auth_flow.py, so the first
      `sleep(rate_limit_sleep)` raises NameError. The first one is reached right after an accepted
      self check (auth_flow.py:51) or right after the first login (auth_flow.py:69). */
  ghost function FlowAsWritten(s: Service, w: World): (Outcome, World)
    requires ServiceValid(s)
  {
    var env := Config.LoadEnvVariables(w.environ);
    if Text.Truthy(env.tokenId) && Text.Truthy(env.tokenKey) then
      var (d, ok, w1) := CheckAccess(s, w);
      if ok then (Crashed, w1)
      else if d.Exited? then (Exited, w1)
      else if d.NoKey? then (Crashed, w1)
      else FromCredentialsAsWritten(s, w1)
    else
      FromCredentialsAsWritten(s, w)
  }

  ghost function FromCredentialsAsWritten(s: Service, w: World): (Outcome, World)
    requires ServiceValid(s)
  {
    var username := Config.Get(w.environ, "BHE_USERNAME");
    var configured := Config.Get(w.environ, "BHE_PASSWORD");
    var (password, w1) :=
      if configured == Some("none") then
        var (generated, wg) := Generate(s, w);
        (Some(generated), Write(wg, "BHE_PASSWORD", generated))
      else (configured, w);
    if !Text.Truthy(username) || !Text.Truthy(password) then (Rejected, w1)
    else
      var (result, w2) := Login(s, w1, username.value, password.value);
      (Crashed, w2)
  }

  /** As written, `authenticate()` never returns True: where the intended flow accepts existing
      tokens, the code as written crashes. */
  lemma NeverAuthenticatesAsWritten(s: Service, w: World)
    requires ServiceValid(s)
    ensures FlowAsWritten(s, w).0 != Authenticated
    ensures Text.Truthy(Config.Get(w.environ, "BHE_TOKEN_ID")) && Text.Truthy(Config.Get(w.environ, "BHE_TOKEN_KEY"))
            && CheckAccess(s, w).1 ==>
              FlowAsWritten(s, w).0 == Crashed && Flow(s, w).0 == Authenticated
  {
    if Text.Truthy(Config.Get(w.environ, "BHE_TOKEN_ID")) && Text.Truthy(Config.Get(w.environ, "BHE_TOKEN_KEY"))
       && CheckAccess(s, w).1 {
      ExistingTokensShortcut(s, w);
      var env := Config.LoadEnvVariables(w.environ);
      Config.LoadReads(w.environ, Config.TokenId);
      Config.LoadReads(w.environ, Config.TokenKey);
    }
  }

  // ---------------------------------------------------------------------------------------------
  // The imperative flow

  class Authenticator {
    const service: Service
    const store: Config.ConfigStore
    var events: seq<Event>
    var drawn: nat

    constructor (service: Service, store: Config.ConfigStore)
      ensures this.service == service && this.store == store && events == [] && drawn == 0
    {
      this.service := service;
      this.store := store;
      events := [];
      drawn := 0;
    }

    ghost function State(): World
      reads this, store
    {
      World(store.environ, store.envFile, events, drawn)
    }

    /** `sleep(rate_limit_sleep)`: pacing only. */
    method Pace() {
    }

    method WriteStep(key: string, value: string)
      modifies this, store
      ensures State() == Write(old(State()), key, value)
    {
      store.UpdateEnvVariables(key, value);
      events := events + [Wrote(key, value)];
    }

    method DrawPassword() returns (password: string)
      requires ServiceValid(service)
      modifies this
      ensures (password, State()) == Generate(service, old(State()))
    {
      var next;
      password, next := Utils.GeneratePassword(service.draws, drawn);
      drawn := next;
    }

    method LoginStep(username: string, secret: string) returns (r: Utils.LoginResult)
      modifies this, store
      ensures (r, State()) == Login(service, old(State()), username, secret)
    {
      var reply := service.login(|events|, username, secret);
      events := events + [LoginSent(username, secret, reply)];
      r := Utils.LoginGetToken(store, reply);
      if reply.data.Some? {
        events := events + [Wrote("MUST_CHANGE_PASSWORD", Utils.MustChangeFlag(reply.data.value.authExpired))];
      }
    }

    method RetrieveStep() returns (initial: Option<string>)
      modifies this
      ensures initial == Utils.RecoveredPassword(service.logs)
      ensures State() == old(State()).(events := old(State()).events + [LogsRead])
    {
      events := events + [LogsRead];
      initial := Utils.RetrieveInitialPassword(service.logs);
    }

    method ChangeSecretStep(userId: string, bearer: string, current: string, next: Option<string>) returns (status: int)
      modifies this
      ensures (status, State()) == ChangeSecret(service, old(State()), userId, bearer, current, next)
    {
      status := service.changeSecret(|events|, userId, bearer, current, next);
      events := events + [SecretChangeSent(userId, bearer, current, next, status)];
    }

    method VerifyAccessStep() returns (d: BhUtils.Dispatch, ok: bool)
      modifies this
      ensures (d, ok, State()) == CheckAccess(service, old(State()))
    {
      var moment := |events|;
      d, ok := BhUtils.VerifyAccess(service.prims, store.environ, service.probe, service.clock(moment),
                                    request => service.selfStatus(moment, request));
      events := events + [AccessChecked(d, ok)];
    }

    /** `authenticate()`. */
    method Authenticate() returns (outcome: Outcome)
      requires ServiceValid(service)
      modifies this, store
      ensures (outcome, State()) == Flow(service, old(State()))
    {
      var envVars := store.Load();
      if Text.Truthy(envVars.tokenId) && Text.Truthy(envVars.tokenKey) {
        var d, ok := VerifyAccessStep();
        if ok {
          Pace();
          return Authenticated;
        }
        if d.Exited? {
          return Exited;
        }
        if d.NoKey? {
          return Crashed;
        }
      }
      outcome := FromCredentialsSteps();
    }

    /** From "Get credentials" to the end. */
    method FromCredentialsSteps() returns (outcome: Outcome)
      requires ServiceValid(service)
      modifies this, store
      ensures (outcome, State()) == FromCredentials(service, old(State()))
    {
      var username := Config.Get(store.environ, "BHE_USERNAME");
      var password := Config.Get(store.environ, "BHE_PASSWORD");
      if password == Some("none") {
        var generated := DrawPassword();
        password := Some(generated);
        WriteStep("BHE_PASSWORD", generated);
      }
      if !Text.Truthy(username) || !Text.Truthy(password) {
        return Rejected;
      }
      var result := LoginStep(username.value, password.value);
      Pace();
      if !Utils.LoggedIn(result) {
        outcome := RecoverSteps(username.value, password.value);
      } else {
        outcome := FromSessionSteps(username.value, password.value, result);
      }
    }

    /** The recovery path after a failed first login. */
    method RecoverSteps(username: string, password: string) returns (outcome: Outcome)
      requires ServiceValid(service)
      modifies this, store
      ensures (outcome, State()) == Recover(service, old(State()), username, password)
    {
      var initialPassword := RetrieveStep();
      if !Text.Truthy(initialPassword) || initialPassword == Some(Utils.NoPasswordFound) {
        return Rejected;
      }
      WriteStep("BHE_INITIAL_PASSWORD", initialPassword.value);
      var result := LoginStep(username, initialPassword.value);
      Pace();
      if !Utils.LoggedIn(result) {
        return Rejected;
      }
      outcome := MoveToConfiguredSteps(username, password, initialPassword.value, result);
    }

    /** The change from the initial password to the configured one, and the login after it. */
    method MoveToConfiguredSteps(username: string, password: string, initial: string, session: Utils.LoginResult) returns (outcome: Outcome)
      requires ServiceValid(service) && Utils.LoggedIn(session)
      modifies this, store
      ensures (outcome, State()) == MoveToConfigured(service, old(State()), username, password, initial, session)
    {
      var status := ChangeSecretStep(session.userId, session.sessionToken, initial, Some(password));
      Pace();
      if status != 200 {
        return Rejected;
      }
      WriteStep("BHE_PASSWORD", password);
      var result := LoginStep(username, password);
      Pace();
      if !Utils.LoggedIn(result) {
        return Rejected;
      }
      outcome := FromSessionSteps(username, password, result);
    }

    /** Logged in: the forced change when demanded, then provisioning. */
    method FromSessionSteps(username: string, password: string, result: Utils.LoginResult) returns (outcome: Outcome)
      requires ServiceValid(service) && Utils.LoggedIn(result)
      modifies this, store
      ensures (outcome, State()) == FromSession(service, old(State()), username, password, result)
    {
      if result.mustChange {
        outcome := ForcedChangeSteps(username, password, result);
      } else {
        outcome := ProvisionSteps(result.userId, result.sessionToken);
      }
    }

    /** The forced password change. */
    method ForcedChangeSteps(username: string, password: string, result: Utils.LoginResult) returns (outcome: Outcome)
      requires ServiceValid(service) && Utils.LoggedIn(result)
      modifies this, store
      ensures (outcome, State()) == ForcedChange(service, old(State()), username, password, result)
    {
      var newPassword := Config.Get(store.environ, "BHE_NEW_PASSWORD");
      if Utils.NeedsFreshPassword(newPassword, Some(password)) {
        var generated := DrawPassword();
        newPassword := Some(generated);
        WriteStep("BHE_NEW_PASSWORD", generated);
      }
      outcome := ChangeToNextSteps(username, password, newPassword, result);
    }

    /** The change to the chosen password and the login with it. */
    method ChangeToNextSteps(username: string, password: string, newPassword: Option<string>, result: Utils.LoginResult) returns (outcome: Outcome)
      requires Utils.LoggedIn(result)
      modifies this, store
      ensures (outcome, State()) == ChangeToNext(service, old(State()), username, password, newPassword, result)
    {
      var status := ChangeSecretStep(result.userId, result.sessionToken, password, newPassword);
      Pace();
      if status != 200 {
        return Rejected;
      }
      if newPassword.None? {
        // `os.environ["BHE_PASSWORD"] = None` raises TypeError.
        return Crashed;
      }
      WriteStep("BHE_PASSWORD", newPassword.value);
      WriteStep("BHE_NEW_PASSWORD", "none");
      var relogin := LoginStep(username, newPassword.value);
      Pace();
      if !Utils.LoggedIn(relogin) {
        return Rejected;
      }
      outcome := ProvisionSteps(relogin.userId, relogin.sessionToken);
    }

    /** Token creation, `update_env_api_key` and the final check. */
    method ProvisionSteps(userId: string, sessionToken: string) returns (outcome: Outcome)
      modifies this, store
      ensures (outcome, State()) == Provision(service, old(State()), userId, sessionToken)
    {
      var apiResponse := service.createToken(|events|, sessionToken, userId, TokenName);
      events := events + [TokenRequested(sessionToken, userId, TokenName, apiResponse)];
      if apiResponse.data.None? {
        return Rejected;
      }
      ghost var w1 := State();
      var tokenId, tokenKey, _ := Utils.UpdateEnvApiKey(store, apiResponse);
      events := events + [Wrote("BHE_TOKEN_ID", tokenId), Wrote("BHE_TOKEN_KEY", tokenKey)];
      ghost var w2 := Write(Write(w1, "BHE_TOKEN_ID", tokenId), "BHE_TOKEN_KEY", tokenKey);
      assert w2.events == w1.events + [Wrote("BHE_TOKEN_ID", tokenId), Wrote("BHE_TOKEN_KEY", tokenKey)];
      assert State() == w2;
      var d, ok := VerifyAccessStep();
      outcome := FinalOutcome(d, ok);
    }
  }
}
