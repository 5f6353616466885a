/** The one-time code that opens a session, down to the digits. */
module CodeFactor {
  import opened Common
  import T = Totp
  import M = Mfa
  import G = Gateway

  /** The server checks codes as `Totp` says. */
  ghost predicate ChecksTotp(cfg: G.Config, hmac: (Bytes, Bytes) -> Bytes)
    requires T.IsHmac(hmac)
  {
    forall secret: string, code: string, now: int ::
      cfg.accepts(secret, code, now) == T.Accepts(hmac, secret, code, now)
  }

  /** Steps `s` and `c` drew and confirmed a secret of which this is an adjacent code. */
  ghost predicate Spelled(hmac: (Bytes, Bytes) -> Bytes, run: seq<M.Action>, s: nat, c: nat, user: string, code: string,
                          now: int)
    requires T.IsHmac(hmac)
  {
    && M.NewestStart(run, s, |run|, user) && s < c < |run| && run[c].Confirm? && run[c].user == user
    && run[c].now / 30_000 >= 1 && T.IsAdjacentCode(hmac, run[s].secret, run[c].code, run[c].now)
    && now / 30_000 >= 1 && T.IsAdjacentCode(hmac, run[s].secret, code, now)
  }

  /**
   * A code proves its user if and only if it is the code of the step at hand
   * or of one next to it, under the user's newest secret, and a code of that
   * secret confirmed it before, in its own time.
   */
  lemma CodeProvesByDigits(cfg: G.Config, hmac: (Bytes, Bytes) -> Bytes, run: seq<G.Action>, f: nat, user: string,
                           device: string)
    requires T.IsHmac(hmac) && ChecksTotp(cfg, hmac)
    requires f < |run| && run[f].Code? && run[f].token.Token?
    requires run[f].token.claims.sub == user && run[f].token.claims.did == device
    ensures G.Proves(cfg, run, f, user, device) <==>
            exists s: nat, c: nat :: Spelled(hmac, G.CodeRequests(run[..f]), s, c, user, run[f].code, run[f].now)
  {
    var requests := G.CodeRequests(run[..f]);
    G.CodeProvesExactly(cfg, run, f, user, device);
    forall s: nat, c: nat
      ensures M.Enrolled(cfg.accepts, requests, s, c, user, run[f].code, run[f].now) <==>
              Spelled(hmac, requests, s, c, user, run[f].code, run[f].now)
    {
      EnrolledIsSpelled(cfg, hmac, requests, s, c, user, run[f].code, run[f].now);
    }
  }

  lemma EnrolledIsSpelled(cfg: G.Config, hmac: (Bytes, Bytes) -> Bytes, run: seq<M.Action>, s: nat, c: nat,
                          user: string,
                          code: string, now: int)
    requires T.IsHmac(hmac) && ChecksTotp(cfg, hmac)
    ensures M.Enrolled(cfg.accepts, run, s, c, user, code, now) <==> Spelled(hmac, run, s, c, user, code, now)
  {
    if M.NewestStart(run, s, |run|, user) {
      T.AcceptsExactly(hmac, run[s].secret, code, now);
      if c < |run| && run[c].Confirm? {
        T.AcceptsExactly(hmac, run[s].secret, run[c].code, run[c].now);
      }
    }
  }
}
