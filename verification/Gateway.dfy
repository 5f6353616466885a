/** The routes between a login and the vault: tokens, second factors, and the guard. */
module Gateway {
  import opened Common
  import opened SyncRules
  import D = Devices
  import P = Passkeys
  import W = DeviceChallenges
  import M = Mfa
  import CompositeKey
  import V = VaultService
  import Crypto

  /** `exp` is in seconds. */
  datatype Claims = Claims(sub: string, did: string, mfa: bool, exp: int)

  /** A token in three parts with the secret its signature was made with, or any other text. */
  datatype Token = Token(claims: Claims, secret: string) | Text(text: string)

  /** The token secret, the passkey settings, where devices are kept, and the check of one-time codes. */
  datatype Config = Config(secret: string, passkeys: P.Config, repo: D.Repo, accepts: M.Verifier)

  datatype State =
    State(auth: W.State, passkeys: P.State, codes: M.Store, vault: map<string, map<Id, Row<string>>>)

  const INIT := State(W.INIT, P.INIT, map[], map[])

  function RowsFor(vault: map<string, map<Id, Row<string>>>, user: string): map<Id, Row<string>> {
    if user in vault then vault[user] else map[]
  }

  // -------- tokens and the guard --------

  const LOGIN_SECONDS := 300
  const SESSION_SECONDS := 3600

  function Issue(secret: string, sub: string, did: string, mfa: bool, now: int, seconds: int): Token {
    Token(Claims(sub, did, mfa, now / 1000 + seconds), secret)
  }

  /** The claims of an untampered token that has not expired. */
  function VerifyToken(secret: string, token: Token, now: int): Option<Claims> {
    if token.Token? && token.secret == secret && token.claims.exp >= now / 1000 then Some(token.claims) else None
  }

  datatype Pass = Pass(claims: Claims) | Stop(status: nat)

  /** `header` is the bearer token of a request, if it has one. */
  function Authenticate(cfg: Config, devices: D.Store, header: Option<Token>, now: int): Pass {
    if header.None? then Stop(401)
    else
      match VerifyToken(cfg.secret, header.value, now)
      case None => Stop(401)
      case Some(claims) =>
        if !claims.mfa then Stop(403)
        else if !D.IsApproved(cfg.repo, devices, claims.sub, claims.did) then Stop(403)
        else Pass(claims)
  }

  /**
   * The guard passes an untampered, unexpired token of a second factor from a
   * device that is approved now, answers 403 if only the second factor or the
   * approval is missing, and 401 to everything else.
   */
  lemma GuardAnswersExactly(cfg: Config, devices: D.Store, header: Option<Token>, now: int)
    ensures var pass := Authenticate(cfg, devices, header, now);
            && (forall c :: pass == Pass(c) <==>
                              && header == Some(Token(c, cfg.secret)) && now / 1000 <= c.exp
                              && c.mfa && D.IsApproved(cfg.repo, devices, c.sub, c.did))
            && (pass == Stop(403) <==>
                exists c: Claims ::
                  && header == Some(Token(c, cfg.secret)) && now / 1000 <= c.exp
                  && !(c.mfa && D.IsApproved(cfg.repo, devices, c.sub, c.did)))
            && (pass == Stop(401) <==>
                forall c: Claims :: header == Some(Token(c, cfg.secret)) ==> c.exp < now / 1000)
  {
    if header.Some? && header.value.Token? {
      var c := header.value.claims;
      assert header.value == Token(c, header.value.secret);
      if header.value.secret == cfg.secret {
        assert header == Some(Token(c, cfg.secret));
      }
    }
  }

  // -------- the routes --------

  /**
   * Each request with the clock at which it is served. What the account
   * service says of a login is part of the request, as are the random values
   * the server draws.
   */
  datatype Action =
    | Login(user: Option<string>, device: Option<string>, now: int)
    | Code(token: Token, code: string, now: int)
    | PasskeyOptions(token: Token, random: nat, now: int)
    | PasskeyVerify(token: Token, id: Bytes, clientData: Bytes, authData: Bytes, signature: Bytes, now: int)
    | DeviceChallenge(token: Token, challenge: string, now: int)
    | DeviceVerify(token: Token, challenge: string, signed: Crypto.Signature, now: int)
    | OnDevices(request: D.Action, now: int)
    | OnCodes(enrollment: M.Action, now: int)
    | RegisterOptions(header: Option<Token>, random: nat, now: int)
    | RegisterVerify(header: Option<Token>, clientData: Bytes, attestation: Bytes, now: int)
    | Pull(header: Option<Token>, now: int)
    | Put(header: Option<Token>, item: Id, ciphertext: string, base: Option<int>, now: int)
    | Delete(header: Option<Token>, item: Id, now: int)

  datatype Response =
    | Denied(status: nat)
    | Granted(token: Token)
    | NeedsDevice(user: string)
    | Challenge
    | Handled
    | Items(rows: map<Id, Row<string>>)
    | Pushed(outcome: PushOutcome<string>)
    | Crashed

  predicate HasPasskeys(s: P.State, user: string) {
    exists id | id in s.credentials :: s.credentials[id].user == user
  }

  function Step(cfg: Config, s: State, a: Action): (Response, State) {
    match a
    case Login(user, device, now) =>
      (if user.None? then Denied(401)
       else if device.None? then NeedsDevice(user.value)
       else Granted(Issue(cfg.secret, user.value, device.value, false, now, LOGIN_SECONDS)), s)
    case OnDevices(request, _) =>
      (Handled, s.(auth := W.Step(cfg.repo, s.auth, W.OnDevices(request)).1))
    case OnCodes(enrollment, _) =>
      var (outcome, after) := M.Step(cfg.accepts, s.codes, enrollment);
      (match outcome
       case Some(true) => Handled
       case Some(false) => Denied(400)
       case None => Crashed,
       s.(codes := after))
    case RegisterOptions(_, _, _) => Guarded(cfg, s, a)
    case RegisterVerify(_, _, _, _) => Guarded(cfg, s, a)
    case Pull(_, _) => Guarded(cfg, s, a)
    case Put(_, _, _, _, _) => Guarded(cfg, s, a)
    case Delete(_, _, _) => Guarded(cfg, s, a)
    case _ =>
      match VerifyToken(cfg.secret, a.token, a.now)
      case None => (Denied(401), s)
      case Some(claims) => SecondFactor(cfg, s, a, claims)
  }

  predicate NeedsToken(a: Action) {
    a.Code? || a.PasskeyOptions? || a.PasskeyVerify? || a.DeviceChallenge? || a.DeviceVerify?
  }

  predicate NeedsSession(a: Action) {
    a.RegisterOptions? || a.RegisterVerify? || a.Pull? || a.Put? || a.Delete?
  }

  function FullToken(cfg: Config, claims: Claims, now: int): Token {
    Issue(cfg.secret, claims.sub, claims.did, true, now, SESSION_SECONDS)
  }

  function SecondFactor(cfg: Config, s: State, a: Action, claims: Claims): (Response, State)
    requires NeedsToken(a)
  {
    match a
    case Code(_, code, now) =>
      (match M.Verify(cfg.accepts, s.codes, claims.sub, code, now)
       case Some(true) => Granted(FullToken(cfg, claims, now))
       case Some(false) => Denied(401)
       case None => Crashed, s)
    case PasskeyOptions(_, random, now) =>
      if !HasPasskeys(s.passkeys, claims.sub) then (Denied(404), s)
      else (Challenge, s.(passkeys := P.Step(cfg.passkeys, s.passkeys, P.Mint(claims.sub, P.Get, random, now)).1))
    case PasskeyVerify(_, id, clientData, authData, signature, now) =>
      var (outcome, after) := P.Step(cfg.passkeys, s.passkeys,
        P.Assert(claims.sub, id, clientData, authData, signature, now));
      (match outcome
       case Success => Granted(FullToken(cfg, claims, now))
       case Failure(_) => Denied(401)
       case Threw => Crashed,
       s.(passkeys := after))
    case DeviceChallenge(_, challenge, now) =>
      (Challenge, s.(auth := W.Step(cfg.repo, s.auth, W.Create(claims.sub, claims.did, challenge, now)).1))
    case DeviceVerify(_, challenge, signed, now) =>
      var (outcome, after) := W.Step(cfg.repo, s.auth, W.Answer(claims.sub, claims.did, challenge, signed, now));
      (match outcome
       case Some(true) => Granted(FullToken(cfg, claims, now))
       case Some(false) => Denied(401)
       case None => Crashed,
       s.(auth := after))
  }

  function Guarded(cfg: Config, s: State, a: Action): (Response, State)
    requires NeedsSession(a)
  {
    match Authenticate(cfg, s.auth.devices, a.header, a.now)
    case Stop(status) => (Denied(status), s)
    case Pass(claims) =>
      match a
      case RegisterOptions(_, random, now) =>
        (Challenge, s.(passkeys := P.Step(cfg.passkeys, s.passkeys, P.Mint(claims.sub, P.Create, random, now)).1))
      case RegisterVerify(_, clientData, attestation, now) =>
        var (outcome, after) := P.Step(cfg.passkeys, s.passkeys, P.Register(claims.sub, clientData, attestation, now));
        (match outcome
         case Success => Handled
         case Failure(_) => Denied(400)
         case Threw => Crashed,
         s.(passkeys := after))
      case Pull(_, _) => (Items(RowsFor(s.vault, claims.sub)), s)
      case Put(_, item, ciphertext, base, _) =>
        var (rows, outcome) := SyncRules.Push(RowsFor(s.vault, claims.sub), item, ciphertext, base);
        (Pushed(outcome), s.(vault := s.vault[claims.sub := rows]))
      case Delete(_, item, _) =>
        (Handled, s.(vault := s.vault[claims.sub := RowsFor(s.vault, claims.sub) - {item}]))
  }

  // -------- runs --------

  function Reach(cfg: Config, run: seq<Action>): State
    decreases |run|
  {
    if run == [] then INIT else Step(cfg, Reach(cfg, run[..|run| - 1]), run[|run| - 1]).1
  }

  function Before(cfg: Config, run: seq<Action>, i: nat): State
    requires i <= |run|
  {
    Reach(cfg, run[..i])
  }

  lemma StepOf(cfg: Config, run: seq<Action>, i: nat)
    requires i < |run|
    ensures Before(cfg, run, i + 1) == Step(cfg, Before(cfg, run, i), run[i]).1
  {
    assert run[..i + 1][..i] == run[..i];
  }

  function ResponseTo(cfg: Config, run: seq<Action>, i: nat): Response
    requires i < |run|
  {
    Step(cfg, Before(cfg, run, i), run[i]).0
  }

  /** The token that a request carries. */
  function Carried(a: Action): Option<Token> {
    if NeedsToken(a) then Some(a.token) else if NeedsSession(a) then a.header else None
  }

  /** The signature cannot be forged: a token with a good one was handed out earlier in the run. */
  ghost predicate Unforged(cfg: Config, run: seq<Action>) {
    forall i | 0 <= i < |run| ::
      var t := Carried(run[i]);
      t.Some? && t.value.Token? && t.value.secret == cfg.secret ==>
        exists k | 0 <= k < i :: ResponseTo(cfg, run, k) == Granted(t.value)
  }

  /** Step `l` is a successful login of this user from this device. */
  predicate LogsIn(run: seq<Action>, l: nat, user: string, device: string) {
    l < |run| && run[l].Login? && run[l].user == Some(user) && run[l].device == Some(device)
  }

  /** Step `f` is a second factor of this user that was accepted, on a token for this device. */
  predicate Proves(cfg: Config, run: seq<Action>, f: nat, user: string, device: string) {
    && f < |run| && NeedsToken(run[f]) && run[f].token.Token?
    && run[f].token.claims.sub == user && run[f].token.claims.did == device
    && match run[f]
       case Code(_, code, now) =>
         M.Verify(cfg.accepts, Before(cfg, run, f).codes, user, code, now) == Some(true)
       case PasskeyVerify(_, id, clientData, authData, signature, now) =>
         P.Step(cfg.passkeys, Before(cfg, run, f).passkeys,
           P.Assert(user, id, clientData, authData, signature, now)).0 == P.Success
       case DeviceVerify(_, challenge, signed, now) =>
         W.Step(cfg.repo, Before(cfg, run, f).auth, W.Answer(user, device, challenge, signed, now)).0 == Some(true)
       case _ => false
  }

  /** A token is given out by a login without a second factor, and by a second factor with one. */
  lemma GrantedBy(cfg: Config, run: seq<Action>, k: nat, t: Token)
    requires k < |run| && ResponseTo(cfg, run, k) == Granted(t)
    ensures t.Token? && t.secret == cfg.secret
    ensures if t.claims.mfa
            then Proves(cfg, run, k, t.claims.sub, t.claims.did) && run[k].token.secret == cfg.secret
                 && t.claims.exp == run[k].now / 1000 + 3600
            else LogsIn(run, k, t.claims.sub, t.claims.did) && t.claims.exp == run[k].now / 1000 + 300
  {
  }

  /** Behind every token there is a login of its user from its device. */
  lemma {:induction false} TokenHasLogin(cfg: Config, run: seq<Action>, k: nat, t: Token) returns (l: nat)
    requires Unforged(cfg, run) && k < |run| && ResponseTo(cfg, run, k) == Granted(t)
    ensures l <= k && t.Token? && LogsIn(run, l, t.claims.sub, t.claims.did) && (t.claims.mfa ==> l < k)
    decreases k
  {
    GrantedBy(cfg, run, k, t);
    if t.claims.mfa {
      var earlier := run[k].token;
      assert Carried(run[k]) == Some(earlier);
      var j :| 0 <= j < k && ResponseTo(cfg, run, j) == Granted(earlier);
      l := TokenHasLogin(cfg, run, j, earlier);
    } else {
      l := k;
    }
  }

  /**
   * Whoever passes the guard has come the whole way: a login for the user and
   * device of the token, after it a second factor of that user within the last
   * hour, and a device approved now.
   */
  lemma GuardNeedsBothFactors(cfg: Config, run: seq<Action>, i: nat, claims: Claims) returns (l: nat, f: nat)
    requires Unforged(cfg, run) && i < |run| && NeedsSession(run[i])
    requires Authenticate(cfg, Before(cfg, run, i).auth.devices, run[i].header, run[i].now) == Pass(claims)
    ensures l < f < i && LogsIn(run, l, claims.sub, claims.did) && Proves(cfg, run, f, claims.sub, claims.did)
    ensures run[i].now / 1000 <= run[f].now / 1000 + 3600
    ensures D.IsApproved(cfg.repo, Before(cfg, run, i).auth.devices, claims.sub, claims.did)
  {
    var t := run[i].header.value;
    assert Carried(run[i]) == Some(t);
    f :| 0 <= f < i && ResponseTo(cfg, run, f) == Granted(t);
    GrantedBy(cfg, run, f, t);
    l := TokenHasLogin(cfg, run, f, t);
  }

  /** A step that changes a user's rows is a put or a delete by that user, let through by the guard. */
  lemma OnlyItsUserChangesRows(cfg: Config, s: State, a: Action, user: string)
    requires RowsFor(Step(cfg, s, a).1.vault, user) != RowsFor(s.vault, user)
    ensures a.Put? || a.Delete?
    ensures var pass := Authenticate(cfg, s.auth.devices, a.header, a.now); pass.Pass? && pass.claims.sub == user
  {
  }

  /**
   * The vault gate, over all runs: every step that changes a user's rows
   * carries an unexpired token whose user and device logged in and then passed
   * a second factor, and the device is approved at that step.
   */
  lemma RowsChangeOnlyBehindTheGate(cfg: Config, run: seq<Action>, i: nat, user: string)
    returns (device: string, l: nat, f: nat)
    requires Unforged(cfg, run) && i < |run|
    requires RowsFor(Before(cfg, run, i + 1).vault, user) != RowsFor(Before(cfg, run, i).vault, user)
    ensures run[i].Put? || run[i].Delete?
    ensures run[i].header.Some? && run[i].header.value.Token?
    ensures var claims := run[i].header.value.claims;
            claims.sub == user && claims.did == device && claims.mfa && run[i].now / 1000 <= claims.exp
    ensures l < f < i && LogsIn(run, l, user, device) && Proves(cfg, run, f, user, device)
    ensures D.IsApproved(cfg.repo, Before(cfg, run, i).auth.devices, user, device)
  {
    StepOf(cfg, run, i);
    OnlyItsUserChangesRows(cfg, Before(cfg, run, i), run[i], user);
    var claims := Authenticate(cfg, Before(cfg, run, i).auth.devices, run[i].header, run[i].now).claims;
    device := claims.did;
    l, f := GuardNeedsBothFactors(cfg, run, i, claims);
  }

  /** Nor does anyone else read them: rows are served to their own user, behind the same gate. */
  lemma RowsAreServedOnlyBehindTheGate(cfg: Config, run: seq<Action>, i: nat)
    returns (user: string, device: string, l: nat, f: nat)
    requires Unforged(cfg, run) && i < |run| && ResponseTo(cfg, run, i).Items?
    ensures ResponseTo(cfg, run, i) == Items(RowsFor(Before(cfg, run, i).vault, user))
    ensures l < f < i && LogsIn(run, l, user, device) && Proves(cfg, run, f, user, device)
    ensures D.IsApproved(cfg.repo, Before(cfg, run, i).auth.devices, user, device)
  {
    var claims := Authenticate(cfg, Before(cfg, run, i).auth.devices, run[i].header, run[i].now).claims;
    user, device := claims.sub, claims.did;
    l, f := GuardNeedsBothFactors(cfg, run, i, claims);
  }

  /**
   * And the gate opens: a login, a second factor on its token within five
   * minutes, and a request on the full token within the hour pass the guard
   * exactly when the device is approved.
   */
  lemma SessionPassesExactly(cfg: Config, run: seq<Action>, l: nat, f: nat, i: nat, user: string, device: string)
    requires l < |run| && f < |run| && i < |run| && LogsIn(run, l, user, device)
    requires NeedsToken(run[f]) && ResponseTo(cfg, run, l) == Granted(run[f].token) && Proves(cfg, run, f, user, device)
    requires run[f].now / 1000 <= run[l].now / 1000 + 300
    requires NeedsSession(run[i]) && run[i].header.Some? && ResponseTo(cfg, run, f) == Granted(run[i].header.value)
    requires run[i].now / 1000 <= run[f].now / 1000 + 3600
    ensures var devices := Before(cfg, run, i).auth.devices;
            Authenticate(cfg, devices, run[i].header, run[i].now) ==
            if D.IsApproved(cfg.repo, devices, user, device)
            then Pass(Claims(user, device, true, run[f].now / 1000 + 3600)) else Stop(403)
  {
    GrantedBy(cfg, run, l, run[f].token);
    GrantedBy(cfg, run, f, run[i].header.value);
  }

  /** A second factor that is accepted on an unexpired token is answered with a full one. */
  lemma ProofIsGranted(cfg: Config, run: seq<Action>, f: nat, user: string, device: string)
    requires f < |run| && Proves(cfg, run, f, user, device)
    requires run[f].token.secret == cfg.secret && run[f].now / 1000 <= run[f].token.claims.exp
    ensures ResponseTo(cfg, run, f) == Granted(Issue(cfg.secret, user, device, true, run[f].now, 3600))
  {
  }

  /**
   * The three routes of a second factor: a token only for a proof, made on an
   * untampered token that has not expired; else 401, or an exception.
   */
  lemma OnlyProofIsGranted(cfg: Config, run: seq<Action>, f: nat)
    requires f < |run| && (run[f].Code? || run[f].PasskeyVerify? || run[f].DeviceVerify?)
    ensures var response := ResponseTo(cfg, run, f);
            && (response.Granted? || response == Denied(401) || response == Crashed)
            && (response.Granted? <==>
                exists c: Claims ::
                  && run[f].token == Token(c, cfg.secret) && run[f].now / 1000 <= c.exp
                  && Proves(cfg, run, f, c.sub, c.did))
            && ((forall c: Claims :: run[f].token == Token(c, cfg.secret) ==> c.exp < run[f].now / 1000) ==>
                  response == Denied(401))
  {
    if ResponseTo(cfg, run, f).Granted? {
      assert run[f].token == Token(run[f].token.claims, cfg.secret);
    }
  }

  /** A user enrolls a device, logs in, answers a challenge with it and stores an item. */
  function ExampleRun(secret: string): seq<Action> {
    var login := Issue(secret, "u", "d", false, 0, LOGIN_SECONDS);
    var full := Issue(secret, "u", "d", true, 0, SESSION_SECONDS);
    [OnDevices(D.Enroll("u", "d", Crypto.Key(0)), 0), Login(Some("u"), Some("d"), 0), DeviceChallenge(login, "c", 0),
     DeviceVerify(login, "c", Crypto.Signature(0, "c"), 0), Action.Put(Some(full), "x", "c", None, 0)]
  }

  /** The state behind each of its steps, the last one left out. */
  lemma ExampleStates(cfg: Config)
    ensures var run := ExampleRun(cfg.secret);
            var enrolled := Step(cfg, INIT, run[0]).1;
            var challenged := Step(cfg, enrolled, run[2]).1;
            && Before(cfg, run, 1) == enrolled && Before(cfg, run, 2) == enrolled && Before(cfg, run, 3) == challenged
            && Before(cfg, run, 4) == Step(cfg, challenged, run[3]).1
  {
    var run := ExampleRun(cfg.secret);
    assert run[..0] == [];
    StepOf(cfg, run, 0);
    StepOf(cfg, run, 1);
    StepOf(cfg, run, 2);
    StepOf(cfg, run, 3);
  }

  lemma ExampleAnswer(cfg: Config)
    ensures var first := W.Step(cfg.repo, W.INIT, W.OnDevices(D.Enroll("u", "d", Crypto.Key(0)))).1;
            var second := W.Step(cfg.repo, first, W.Create("u", "d", "c", 0)).1;
            var answer := W.Step(cfg.repo, second, W.Answer("u", "d", "c", Crypto.Signature(0, "c"), 0));
            answer.0 == Some(true) && D.IsApproved(cfg.repo, answer.1.devices, "u", "d")
  {
  }

  lemma ExampleResponses(cfg: Config)
    ensures var run := ExampleRun(cfg.secret);
            && ResponseTo(cfg, run, 1) == Granted(run[2].token) && run[3].token == run[2].token
            && ResponseTo(cfg, run, 3) == Granted(run[4].header.value)
            && D.IsApproved(cfg.repo, Before(cfg, run, 4).auth.devices, "u", "d") && Before(cfg, run, 4).vault == map[]
  {
    ExampleStates(cfg);
    ExampleAnswer(cfg);
  }

  lemma ExampleIsUnforged(cfg: Config)
    ensures Unforged(cfg, ExampleRun(cfg.secret))
  {
    var run := ExampleRun(cfg.secret);
    ExampleResponses(cfg);
    forall i | 0 <= i < |run| && Carried(run[i]).Some?
      ensures exists k | 0 <= k < i :: ResponseTo(cfg, run, k) == Granted(Carried(run[i]).value)
    {
      var k := if i == 4 then 3 else 1;
      assert ResponseTo(cfg, run, k) == Granted(Carried(run[i]).value);
    }
  }

  /** The guard lets the last request through. */
  lemma ExamplePasses(cfg: Config, run: seq<Action>, header: Option<Token>)
    requires run == ExampleRun(cfg.secret) && header == run[4].header
    ensures run[4] == Action.Put(header, "x", "c", None, 0) && Before(cfg, run, 4).vault == map[]
    ensures var pass := Authenticate(cfg, Before(cfg, run, 4).auth.devices, header, 0);
            pass.Pass? && pass.claims.sub == "u"
  {
    ExampleResponses(cfg);
  }

  /** The runs that the gate is about exist: in this one the item arrives. */
  lemma SomeoneGetsThrough(cfg: Config, run: seq<Action>)
    requires run == ExampleRun(cfg.secret)
    ensures Unforged(cfg, run)
    ensures RowsFor(Before(cfg, run, 4).vault, "u") == map[]
    ensures RowsFor(Before(cfg, run, 5).vault, "u") == map["x" := Row("c", 1)]
  {
    ExampleIsUnforged(cfg);
    ExamplePasses(cfg, run, run[4].header);
    FirstPut(cfg, run, 4, run[4].header, 0, "u");
  }

  lemma FirstPut(cfg: Config, run: seq<Action>, i: nat, header: Option<Token>, now: int, user: string)
    requires i < |run| && run[i] == Action.Put(header, "x", "c", None, now)
    requires RowsFor(Before(cfg, run, i).vault, user) == map[]
    requires var pass := Authenticate(cfg, Before(cfg, run, i).auth.devices, header, now);
             pass.Pass? && pass.claims.sub == user
    ensures RowsFor(Before(cfg, run, i + 1).vault, user) == map["x" := Row("c", 1)]
  {
    StepOf(cfg, run, i);
  }

  // -------- the device behind the gate --------

  function DeviceRequests(run: seq<Action>): seq<D.Action>
    decreases |run|
  {
    if run == [] then []
    else
      var front, last := DeviceRequests(run[..|run| - 1]), run[|run| - 1];
      if last.OnDevices? then front + [last.request] else front
  }

  /** No other route touches the device store. */
  lemma {:induction false} DevicesReached(cfg: Config, run: seq<Action>)
    ensures Reach(cfg, run).auth.devices == D.Reach(cfg.repo, DeviceRequests(run))
    decreases |run|
  {
    if run != [] {
      var front, last := run[..|run| - 1], run[|run| - 1];
      DevicesReached(cfg, front);
      OtherRoutesKeepDevices(cfg, Reach(cfg, front), last);
      if last.OnDevices? {
        var requests := DeviceRequests(front) + [last.request];
        assert requests[..|requests| - 1] == DeviceRequests(front);
      }
    }
  }

  lemma OtherRoutesKeepDevices(cfg: Config, s: State, a: Action)
    ensures Step(cfg, s, a).1.auth.devices ==
            if a.OnDevices? then D.Step(cfg.repo, s.auth.devices, a.request).1 else s.auth.devices
  {
  }

  /**
   * A device that changes rows stands at the end of a chain of signed
   * approvals from a first device. It is the user's own chain exactly when
   * records are found by pairs, or neither the device of the login nor an
   * approver in the chain is named with a separator.
   */
  lemma RowsChangeOnlyFromTrustedDevices(cfg: Config, run: seq<Action>, i: nat, user: string)
    returns (device: string, links: seq<D.Link>)
    requires Unforged(cfg, run) && i < |run| && D.Proper(DeviceRequests(run[..i]))
    requires RowsFor(Before(cfg, run, i + 1).vault, user) != RowsFor(Before(cfg, run, i).vault, user)
    ensures run[i].Put? || run[i].Delete?
    ensures run[i].header.Some? && run[i].header.value.Token? && run[i].header.value.claims.did == device
    ensures var requests := DeviceRequests(run[..i]);
            && D.NamedChain(cfg.repo, requests, |requests|, user, device, links)
            && (D.Chain(requests, |requests|, user, device, links) <==>
                cfg.repo.File? || (CompositeKey.Plain(device) && D.PlainLinks(cfg.repo, requests, links)))
  {
    var l, f;
    device, l, f := RowsChangeOnlyBehindTheGate(cfg, run, i, user);
    var requests := DeviceRequests(run[..i]);
    DevicesReached(cfg, run[..i]);
    assert requests[..|requests|] == requests;
    links := D.ApprovedHasChain(cfg.repo, requests, |requests|, user, device);
    D.ChainIsOwnExactly(cfg.repo, requests, |requests|, user, device, links);
  }

  // -------- the code behind the gate --------

  function CodeRequests(run: seq<Action>): seq<M.Action>
    decreases |run|
  {
    if run == [] then []
    else
      var front, last := CodeRequests(run[..|run| - 1]), run[|run| - 1];
      if last.OnCodes? then front + [last.enrollment] else front
  }

  /** No other route touches the secrets. */
  lemma {:induction false} CodesReached(cfg: Config, run: seq<Action>)
    ensures Reach(cfg, run).codes == M.Reach(cfg.accepts, CodeRequests(run))
    decreases |run|
  {
    if run != [] {
      var front, last := run[..|run| - 1], run[|run| - 1];
      CodesReached(cfg, front);
      OtherRoutesKeepCodes(cfg, Reach(cfg, front), last);
      if last.OnCodes? {
        var requests := CodeRequests(front) + [last.enrollment];
        assert requests[..|requests| - 1] == CodeRequests(front);
      }
    }
  }

  lemma OtherRoutesKeepCodes(cfg: Config, s: State, a: Action)
    ensures Step(cfg, s, a).1.codes == if a.OnCodes? then M.Step(cfg.accepts, s.codes, a.enrollment).1 else s.codes
  {
  }

  /** A code proves its user if and only if it is right for the user's newest secret, which a right code confirmed. */
  lemma CodeProvesExactly(cfg: Config, run: seq<Action>, f: nat, user: string, device: string)
    requires f < |run| && run[f].Code? && run[f].token.Token?
    requires run[f].token.claims.sub == user && run[f].token.claims.did == device
    ensures Proves(cfg, run, f, user, device) <==>
            exists s: nat, c: nat ::
              M.Enrolled(cfg.accepts, CodeRequests(run[..f]), s, c, user, run[f].code, run[f].now)
  {
    CodesReached(cfg, run[..f]);
    M.CodeIsAcceptedExactly(cfg.accepts, CodeRequests(run[..f]), user, run[f].code, run[f].now);
  }

  // -------- the server --------

  /** The store holds these rows of every user. */
  ghost predicate Holds(items: map<string, V.StoredItem<string>>, vault: map<string, map<Id, Row<string>>>)
    requires V.Keyed(items)
  {
    forall user :: CompositeKey.Plain(user) ==> V.RowsOf(items, user) == RowsFor(vault, user)
  }

  lemma HoldsAfter(items: map<string, V.StoredItem<string>>, after: map<string, V.StoredItem<string>>,
                   vault: map<string, map<Id, Row<string>>>, user: string)
    requires V.Keyed(items) && V.Keyed(after) && Holds(items, vault)
    requires forall other :: CompositeKey.Plain(other) && other != user ==>
             V.RowsOf(after, other) == V.RowsOf(items, other)
    ensures Holds(after, vault[user := V.RowsOf(after, user)])
  {
  }

  lemma DeleteSteps(cfg: Config, s: State, header: Option<Token>, item: Id, now: int)
    requires Authenticate(cfg, s.auth.devices, header, now).Pass?
    ensures var user := Authenticate(cfg, s.auth.devices, header, now).claims.sub;
            Step(cfg, s, Action.Delete(header, item, now)) ==
              (Handled, s.(vault := s.vault[user := RowsFor(s.vault, user) - {item}]))
  {
  }

  lemma PutSteps(cfg: Config, s: State, header: Option<Token>, item: Id, ciphertext: string, base: Option<int>,
                 now: int)
    requires Authenticate(cfg, s.auth.devices, header, now).Pass?
    ensures var user := Authenticate(cfg, s.auth.devices, header, now).claims.sub;
            var (rows, outcome) := SyncRules.Push(RowsFor(s.vault, user), item, ciphertext, base);
            Step(cfg, s, Action.Put(header, item, ciphertext, base, now)) ==
              (Pushed(outcome), s.(vault := s.vault[user := rows]))
  {
  }

  /** The request handler over its stateful services. */
  class Server {
    const secret: string
    const passkeys: P.PasskeyService
    const webauthn: W.WebauthnService
    const devices: D.DeviceService
    const mfa: M.MfaService
    const vaults: V.VaultService<string>
    /** Each user's rows in the repository of `vaults`. */
    ghost var vault: map<string, map<Id, Row<string>>>

    constructor (cfg: Config)
      ensures Valid() && Settings() == cfg && Now() == INIT
      ensures fresh(passkeys) && fresh(webauthn) && fresh(devices) && fresh(mfa) && fresh(vaults) && fresh(vaults.repo)
    {
      secret := cfg.secret;
      var d := new D.DeviceService(cfg.repo);
      devices := d;
      passkeys := new P.PasskeyService(cfg.passkeys);
      webauthn := new W.WebauthnService(d);
      mfa := new M.MfaService(cfg.accepts);
      var repo := new V.VaultRepository<string>();
      vaults := new V.VaultService<string>(repo);
      vault := map[];
    }

    ghost predicate Valid()
      reads this`vault, vaults.repo
    {
      && webauthn.devices == devices
      && vaults.repo.Valid() && Holds(vaults.repo.items, vault)
    }

    /** Account ids are UUIDs: if the guard lets this request through, its user's id is one. */
    ghost predicate IsAccount(header: Option<Token>, now: int)
      reads devices
    {
      var pass := Authenticate(Settings(), devices.items, header, now);
      pass.Pass? ==> CompositeKey.Plain(pass.claims.sub)
    }

    function Settings(): Config {
      Config(secret, passkeys.cfg, devices.repo, mfa.accepts)
    }

    ghost function Now(): State
      requires Valid()
      reads this, passkeys, webauthn, devices, mfa, vaults.repo
    {
      State(webauthn.Now(), passkeys.Now(), mfa.items, vault)
    }

    method PostLogin(user: Option<string>, device: Option<string>, now: int) returns (r: Response)
      requires Valid()
      ensures (r, Now()) == Step(Settings(), Now(), Login(user, device, now))
    {
      if user.None? {
        return Denied(401);
      }
      if device.None? {
        return NeedsDevice(user.value);
      }
      r := Granted(Issue(secret, user.value, device.value, false, now, LOGIN_SECONDS));
    }

    method PostCodeConfirm(user: string, code: string, now: int) returns (r: Response)
      requires Valid()
      modifies mfa
      ensures (r, Now()) == Step(Settings(), old(Now()), OnCodes(M.Confirm(user, code, now), now))
    {
      var ok := mfa.ConfirmEnrollment(user, code, now);
      match ok {
        case Some(true) => r := Handled;
        case Some(false) => r := Denied(400);
        case None => r := Crashed;
      }
    }

    method PostCode(token: Token, code: string, now: int) returns (r: Response)
      requires Valid()
      ensures (r, Now()) == Step(Settings(), Now(), Code(token, code, now))
    {
      var claims := VerifyToken(secret, token, now);
      if claims.None? {
        return Denied(401);
      }
      var ok := mfa.VerifyCode(claims.value.sub, code, now);
      match ok {
        case Some(true) => r := Granted(FullToken(Settings(), claims.value, now));
        case Some(false) => r := Denied(401);
        case None => r := Crashed;
      }
    }

    method PostPasskeyOptions(token: Token, random: nat, now: int) returns (r: Response)
      requires Valid()
      modifies passkeys
      ensures (r, Now()) == Step(Settings(), old(Now()), PasskeyOptions(token, random, now))
    {
      var claims := VerifyToken(secret, token, now);
      if claims.None? {
        return Denied(401);
      }
      if !HasPasskeys(passkeys.Now(), claims.value.sub) {
        return Denied(404);
      }
      var challenge := passkeys.MintChallenge(claims.value.sub, P.Get, random, now);
      r := Challenge;
    }

    method PostPasskeyVerify(token: Token, id: Bytes, clientData: Bytes, authData: Bytes, signature: Bytes, now: int)
      returns (r: Response)
      requires Valid()
      modifies passkeys
      ensures (r, Now()) == Step(Settings(), old(Now()), PasskeyVerify(token, id, clientData, authData, signature, now))
    {
      var claims := VerifyToken(secret, token, now);
      if claims.None? {
        return Denied(401);
      }
      var outcome := passkeys.VerifyAssertion(claims.value.sub, id, clientData, authData, signature, now);
      match outcome {
        case Success => r := Granted(FullToken(Settings(), claims.value, now));
        case Failure(_) => r := Denied(401);
        case Threw => r := Crashed;
      }
    }

    method PostRegisterOptions(header: Option<Token>, random: nat, now: int) returns (r: Response)
      requires Valid()
      modifies passkeys
      ensures (r, Now()) == Step(Settings(), old(Now()), RegisterOptions(header, random, now))
    {
      var pass := Authenticate(Settings(), devices.items, header, now);
      if pass.Stop? {
        return Denied(pass.status);
      }
      var challenge := passkeys.MintChallenge(pass.claims.sub, P.Create, random, now);
      r := Challenge;
    }

    method PostRegisterVerify(header: Option<Token>, clientData: Bytes, attestation: Bytes, now: int)
      returns (r: Response)
      requires Valid()
      modifies passkeys
      ensures (r, Now()) == Step(Settings(), old(Now()), RegisterVerify(header, clientData, attestation, now))
    {
      var pass := Authenticate(Settings(), devices.items, header, now);
      if pass.Stop? {
        return Denied(pass.status);
      }
      var outcome := passkeys.VerifyRegistration(pass.claims.sub, clientData, attestation, now);
      match outcome {
        case Success => r := Handled;
        case Failure(_) => r := Denied(400);
        case Threw => r := Crashed;
      }
    }

    method PostDeviceChallenge(token: Token, random: string, now: int) returns (r: Response)
      requires Valid()
      modifies webauthn
      ensures (r, Now()) == Step(Settings(), old(Now()), DeviceChallenge(token, random, now))
    {
      var claims := VerifyToken(secret, token, now);
      if claims.None? {
        return Denied(401);
      }
      var challenge := webauthn.CreateChallenge(claims.value.sub, claims.value.did, random, now);
      r := Challenge;
    }

    method PostDeviceVerify(token: Token, challenge: string, signed: Crypto.Signature, now: int) returns (r: Response)
      requires Valid()
      modifies webauthn
      ensures (r, Now()) == Step(Settings(), old(Now()), DeviceVerify(token, challenge, signed, now))
    {
      var claims := VerifyToken(secret, token, now);
      if claims.None? {
        return Denied(401);
      }
      var outcome := webauthn.VerifyAssertion(claims.value.sub, claims.value.did, challenge, signed, now);
      match outcome {
        case Some(true) => r := Granted(FullToken(Settings(), claims.value, now));
        case Some(false) => r := Denied(401);
        case None => r := Crashed;
      }
    }

    method PutItem(header: Option<Token>, item: Id, ciphertext: string, base: Option<int>, now: int)
      returns (r: Response)
      requires Valid() && IsAccount(header, now)
      modifies this`vault, vaults.repo
      ensures Valid() && (r, Now()) == Step(Settings(), old(Now()), Action.Put(header, item, ciphertext, base, now))
    {
      var pass := Authenticate(Settings(), devices.items, header, now);
      if pass.Stop? {
        return Denied(pass.status);
      }
      var user := pass.claims.sub;
      ghost var items := vaults.repo.items;
      PutSteps(Settings(), Now(), header, item, ciphertext, base, now);
      var outcome := vaults.Push(user, item, ciphertext, base);
      HoldsAfter(items, vaults.repo.items, vault, user);
      vault := vault[user := V.RowsOf(vaults.repo.items, user)];
      r := Pushed(outcome);
    }

    method DeleteItem(header: Option<Token>, item: Id, now: int) returns (r: Response)
      requires Valid() && IsAccount(header, now)
      modifies this`vault, vaults.repo
      ensures Valid() && (r, Now()) == Step(Settings(), old(Now()), Action.Delete(header, item, now))
    {
      var pass := Authenticate(Settings(), devices.items, header, now);
      if pass.Stop? {
        return Denied(pass.status);
      }
      var user := pass.claims.sub;
      ghost var items, before := vaults.repo.items, Now();
      DeleteSteps(Settings(), before, header, item, now);
      vaults.Delete(user, item);
      HoldsAfter(items, vaults.repo.items, vault, user);
      vault := vault[user := V.RowsOf(vaults.repo.items, user)];
      assert Now() == before.(vault := vault);
      r := Handled;
    }

    /** The refusal, or a listing of the rows that the step answers with. */
    method GetItems(header: Option<Token>, now: int) returns (refused: Option<nat>, list: seq<V.RemoteItem<string>>)
      requires Valid() && IsAccount(header, now)
      ensures Step(Settings(), Now(), Action.Pull(header, now)).1 == Now()
      ensures match Step(Settings(), Now(), Action.Pull(header, now)).0
              case Denied(status) => refused == Some(status)
              case Items(rows) => refused == None && V.Enumerates(list, rows)
              case _ => false
    {
      var pass := Authenticate(Settings(), devices.items, header, now);
      if pass.Stop? {
        return Some(pass.status), [];
      }
      refused := None;
      list := vaults.Pull(pass.claims.sub);
    }
  }
}
