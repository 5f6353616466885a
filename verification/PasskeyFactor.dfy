/** The passkey routes together: what the server hands out as a challenge can be answered, and when. */
module PasskeyFactor {
  import opened Common
  import opened Gateway
  import P = Passkeys
  import K = CoseKeys

  /** The request draws this challenge. */
  predicate Draws(a: Action, c: nat) {
    (a.PasskeyOptions? || a.RegisterOptions?) && a.random == c
  }

  /** The client data of the request name this challenge. */
  predicate Names(cfg: Config, a: Action, c: nat) {
    && (a.PasskeyVerify? || a.RegisterVerify?)
    && cfg.passkeys.parse(a.clientData).Fields? && cfg.passkeys.parse(a.clientData).challenge == Some(c)
  }

  /** Step `o` drew the challenge, and no step before step `n` drew it again or named it. */
  ghost predicate Untouched(cfg: Config, run: seq<Action>, o: nat, n: nat, c: nat) {
    && o < n <= |run| && Draws(run[o], c) && ResponseTo(cfg, run, o) == Response.Challenge
    && forall k | o < k < n :: !Draws(run[k], c) && !Names(cfg, run[k], c)
  }

  lemma StepKeepsPending(cfg: Config, s: State, a: Action, c: nat)
    requires c in s.passkeys.challenges && !Draws(a, c) && !Names(cfg, a, c)
    ensures var after := Step(cfg, s, a).1.passkeys.challenges;
            c in after && after[c] == s.passkeys.challenges[c]
  {
  }

  lemma {:induction false} StaysPending(cfg: Config, run: seq<Action>, o: nat, n: nat, c: nat)
    requires Untouched(cfg, run, o, n, c)
    ensures var drawn, pending := Before(cfg, run, o + 1).passkeys.challenges, Before(cfg, run, n).passkeys.challenges;
            c in drawn && c in pending && pending[c] == drawn[c]
    decreases n
  {
    if n == o + 1 {
      StepOf(cfg, run, o);
    } else {
      StaysPending(cfg, run, o, n - 1, c);
      StepOf(cfg, run, n - 1);
      StepKeepsPending(cfg, Before(cfg, run, n - 1), run[n - 1], c);
    }
  }

  /** The request's client data are for this ceremony and challenge, and from an allowed origin. */
  predicate Client(cfg: Config, clientData: Bytes, ceremony: P.Ceremony, c: nat) {
    var data := cfg.passkeys.parse(clientData);
    && data.Fields? && data.ceremony == ceremony && data.challenge == Some(c)
    && data.origin.Some? && data.origin.value in cfg.passkeys.origins
  }

  /**
   * A challenge of the login options, answered in time by its user on an
   * unexpired token, earns a full token exactly if the assertion is good.
   */
  lemma PasskeyIsGrantedExactly(cfg: Config, run: seq<Action>, o: nat, f: nat, c: nat, claims: Claims)
    requires f < |run| && Untouched(cfg, run, o, f, c)
    requires run[o].PasskeyOptions? && run[o].token.Token? && run[o].token.claims.sub == claims.sub
    requires run[f].PasskeyVerify? && run[f].token == Token(claims, cfg.secret) && run[f].now / 1000 <= claims.exp
    requires Client(cfg, run[f].clientData, P.Get, c) && run[f].now <= run[o].now + cfg.passkeys.ttl
    ensures ResponseTo(cfg, run, f) == Granted(Token(Claims(claims.sub, claims.did, true, run[f].now / 1000 + 3600),
            cfg.secret)) <==>
            P.IsGood(cfg.passkeys, Before(cfg, run, f).passkeys.credentials,
              P.Assert(claims.sub, run[f].id, run[f].clientData, run[f].authData, run[f].signature, run[f].now))
  {
    StaysPending(cfg, run, o, f, c);
    StepOf(cfg, run, o);
    P.AssertionSucceedsExactly(cfg.passkeys, Before(cfg, run, f).passkeys,
      P.Assert(claims.sub, run[f].id, run[f].clientData, run[f].authData, run[f].signature, run[f].now));
  }

  /**
   * A challenge of the registration options, answered in time by its user in a
   * session that the guard passes, is handled exactly if the attestation offers
   * a new credential with a key for one of the three algorithms.
   */
  lemma RegistrationIsHandledExactly(cfg: Config, run: seq<Action>, o: nat, f: nat, c: nat, claims: Claims)
    requires f < |run| && Untouched(cfg, run, o, f, c)
    requires run[o].RegisterOptions? && run[o].header.Some? && run[o].header.value.Token?
    requires run[o].header.value.claims.sub == claims.sub
    requires run[f].RegisterVerify?
    requires Authenticate(cfg, Before(cfg, run, f).auth.devices, run[f].header, run[f].now) == Pass(claims)
    requires Client(cfg, run[f].clientData, P.Create, c) && run[f].now <= run[o].now + cfg.passkeys.ttl
    ensures ResponseTo(cfg, run, f) == Handled <==>
            exists authData, signCount, found, key ::
              K.Registers(cfg.passkeys, Before(cfg, run, f).passkeys.credentials, run[f].attestation, authData,
                signCount, found, key)
  {
    StaysPending(cfg, run, o, f, c);
    StepOf(cfg, run, o);
    K.RegistrationSucceedsExactly(cfg.passkeys, Before(cfg, run, f).passkeys,
      P.Register(claims.sub, run[f].clientData, run[f].attestation, run[f].now));
  }
}
