/** Passkey ceremonies: single-use challenges, registered credentials, and their sign counts. */
module Passkeys {
  import opened Common
  import opened AuthData
  import Cbor

  datatype Ceremony = Create | Get | Other(text: string)

  /** `clientDataJSON` after parsing. A missing or empty member is `None`; `Null` is the JSON value null. */
  datatype ClientData = Unparsable | Null | Fields(ceremony: Ceremony, challenge: Option<nat>, origin: Option<string>)

  datatype Jwk = Ec(x: Bytes, y: Bytes) | Okp(x: Bytes) | Rsa(n: Bytes, e: Bytes)

  datatype Challenge = Challenge(user: string, ceremony: Ceremony, expiresAt: int)

  datatype Passkey = Passkey(user: string, key: Jwk, signCount: nat)

  /**
   * What the service is configured with, and the parts of the platform it
   * calls: `verify` is `None` for a key that does not import.
   */
  datatype Config = Config(rpHash: Bytes, origins: set<string>, ttl: int, parse: Bytes -> ClientData,
                           sha256: Bytes -> Bytes, verify: (Jwk, Bytes, Bytes) -> Option<bool>)

  datatype State = State(challenges: map<nat, Challenge>, credentials: map<Bytes, Passkey>)

  datatype Reason =
    | MalformedClientData | WrongCeremony | UnknownChallenge | Expired | BadOrigin
    | MalformedAttestation | MissingAuthData | BadAuthData(why: AuthData.Reason)
    | AlreadyRegistered | UnsupportedKey | UnknownCredential | BadSignature | Regression

  /** `Threw` is an exception that leaves the service. */
  datatype Outcome = Success | Failure(reason: Reason) | Threw

  const INIT := State(map[], map[])

  // -------- the two ceremonies --------

  /** Why the client data is refused, if it is, and the challenges left. */
  function CheckClientData(cfg: Config, challenges: map<nat, Challenge>, now: int, data: ClientData, user: string,
                           expected: Ceremony): (Outcome, map<nat, Challenge>)
  {
    match data
    case Unparsable => (Failure(MalformedClientData), challenges)
    case Null => (Threw, challenges)
    case Fields(ceremony, challenge, origin) =>
      if ceremony != expected then (Failure(WrongCeremony), challenges)
      else if challenge.None? || challenge.value !in challenges then (Failure(UnknownChallenge), challenges)
      else
        var rec := challenges[challenge.value];
        var left := challenges - {challenge.value};
        if rec.ceremony != expected || rec.user != user then (Failure(UnknownChallenge), left)
        else if now > rec.expiresAt then (Failure(Expired), left)
        else if origin.None? || origin.value !in cfg.origins then (Failure(BadOrigin), left)
        else (Success, left)
  }

  /** `map.get(key)`. */
  function Find(entries: seq<Cbor.Entry>, key: Cbor.Value): Option<Cbor.Value>
    decreases |entries|
  {
    if entries == [] then None
    else if entries[0].key == key then Some(entries[0].value)
    else Find(entries[1..], key)
  }

  function FindBytes(entries: seq<Cbor.Entry>, key: Cbor.Value): Option<Bytes> {
    match Find(entries, key)
    case Some(Blob(b)) => Some(b)
    case _ => None
  }

  /** The key of a COSE map, for the three algorithms on offer. */
  function CoseToJwk(cose: seq<Cbor.Entry>): Option<Jwk> {
    var kty, alg, curve := Find(cose, Cbor.Int(1)), Find(cose, Cbor.Int(3)), Find(cose, Cbor.Int(-1));
    if kty == Some(Cbor.Int(2)) && alg == Some(Cbor.Int(-7)) then
      var x, y := FindBytes(cose, Cbor.Int(-2)), FindBytes(cose, Cbor.Int(-3));
      if curve == Some(Cbor.Int(1)) && x.Some? && y.Some? then Some(Ec(x.value, y.value)) else None
    else if kty == Some(Cbor.Int(1)) && alg == Some(Cbor.Int(-8)) then
      var x := FindBytes(cose, Cbor.Int(-2));
      if curve == Some(Cbor.Int(6)) && x.Some? then Some(Okp(x.value)) else None
    else if kty == Some(Cbor.Int(3)) && alg == Some(Cbor.Int(-257)) then
      var n, e := FindBytes(cose, Cbor.Int(-1)), FindBytes(cose, Cbor.Int(-2));
      if n.Some? && e.Some? then Some(Rsa(n.value, e.value)) else None
    else None
  }

  /** `"authData"`, in UTF-8. */
  const AUTH_DATA: Bytes := [0x61, 0x75, 0x74, 0x68, 0x44, 0x61, 0x74, 0x61]

  /** The authenticator data inside an attestation object. */
  function AttestedData(attestation: Bytes): Option<Option<Bytes>> {
    match Cbor.Decode(attestation)
    case Ok(Dict(entries)) => Some(FindBytes(entries, Cbor.Text(AUTH_DATA)))
    case _ => None
  }

  /** What a registration stores, if it is not refused. */
  function NewCredential(cfg: Config, credentials: map<Bytes, Passkey>, user: string, attestation: Bytes)
    : (r: (Outcome, map<Bytes, Passkey>))
    ensures r.0 != Success ==> r.1 == credentials
  {
    match AttestedData(attestation)
    case None => (Failure(MalformedAttestation), credentials)
    case Some(None) => (Failure(MissingAuthData), credentials)
    case Some(Some(authData)) =>
      match CheckAuthData(cfg.rpHash, authData, true)
      case Refused(why) => (Failure(BadAuthData(why)), credentials)
      case Throws(_) => (Threw, credentials)
      case Accepted(_, None) => (Threw, credentials)
      case Accepted(signCount, Some(found)) =>
        if found.id in credentials then (Failure(AlreadyRegistered), credentials)
        else
          match CoseToJwk(found.cose)
          case None => (Failure(UnsupportedKey), credentials)
          case Some(key) => (Success, credentials[found.id := Passkey(user, key, signCount)])
  }

  /** Clone detection of section 7.2: a count that is not zero on either side has to grow. */
  predicate Regresses(parsed: nat, stored: nat) {
    (parsed > 0 || stored > 0) && parsed <= stored
  }

  function CheckAssertion(cfg: Config, credentials: map<Bytes, Passkey>, user: string, id: Bytes, clientData: Bytes,
                          authData: Bytes, signature: Bytes): (r: (Outcome, map<Bytes, Passkey>))
    ensures r.0 != Success ==> r.1 == credentials
  {
    if id !in credentials || credentials[id].user != user then (Failure(UnknownCredential), credentials)
    else
      match CheckAuthData(cfg.rpHash, authData, false)
      case Refused(why) => (Failure(BadAuthData(why)), credentials)
      case Throws(_) => (Threw, credentials)
      case Accepted(signCount, _) =>
        match cfg.verify(credentials[id].key, authData + cfg.sha256(clientData), signature)
        case None => (Threw, credentials)
        case Some(false) => (Failure(BadSignature), credentials)
        case Some(true) =>
          if Regresses(signCount, credentials[id].signCount) then (Failure(Regression), credentials)
          else (Success, credentials[id := credentials[id].(signCount := signCount)])
  }

  // -------- steps and runs --------

  datatype Action =
    | Mint(user: string, ceremony: Ceremony, challenge: nat, now: int)
    | Register(user: string, clientData: Bytes, attestation: Bytes, now: int)
    | Assert(user: string, id: Bytes, clientData: Bytes, authData: Bytes, signature: Bytes, now: int)

  function Step(cfg: Config, s: State, a: Action): (Outcome, State) {
    match a
    case Mint(user, ceremony, challenge, now) =>
      (Success, s.(challenges := s.challenges[challenge := Challenge(user, ceremony, now + cfg.ttl)]))
    case Register(user, clientData, attestation, now) =>
      var (client, left) := CheckClientData(cfg, s.challenges, now, cfg.parse(clientData), user, Create);
      if client != Success then (client, s.(challenges := left))
      else
        var (outcome, credentials) := NewCredential(cfg, s.credentials, user, attestation);
        (outcome, State(left, credentials))
    case Assert(user, id, clientData, authData, signature, now) =>
      var (client, left) := CheckClientData(cfg, s.challenges, now, cfg.parse(clientData), user, Get);
      if client != Success then (client, s.(challenges := left))
      else
        var (outcome, credentials) := CheckAssertion(cfg, s.credentials, user, id, clientData, authData, signature);
        (outcome, State(left, credentials))
  }

  function Reach(cfg: Config, run: seq<Action>): State
    decreases |run|
  {
    if run == [] then INIT else Step(cfg, Reach(cfg, run[..|run| - 1]), run[|run| - 1]).1
  }

  /** The state before step `i`. */
  function Before(cfg: Config, run: seq<Action>, i: nat): State
    requires i <= |run|
  {
    Reach(cfg, run[..i])
  }

  function OutcomeOf(cfg: Config, run: seq<Action>, i: nat): Outcome
    requires i < |run|
  {
    Step(cfg, Before(cfg, run, i), run[i]).0
  }

  /** Random challenges are fresh: no two mints give the same one. */
  ghost predicate FreshChallenges(run: seq<Action>) {
    forall i, j | 0 <= i < j < |run| && run[i].Mint? && run[j].Mint? :: run[i].challenge != run[j].challenge
  }

  /** Step `i` is a verification that succeeded. */
  predicate Verified(cfg: Config, run: seq<Action>, i: nat)
    requires i < |run|
  {
    !run[i].Mint? && OutcomeOf(cfg, run, i) == Success
  }

  function ChallengeOf(cfg: Config, a: Action): Option<nat>
    requires !a.Mint?
  {
    match cfg.parse(a.clientData)
    case Fields(_, challenge, _) => challenge
    case _ => None
  }

  function CeremonyOf(a: Action): Ceremony {
    match a
    case Mint(_, ceremony, _, _) => ceremony
    case Register(_, _, _, _) => Create
    case Assert(_, _, _, _, _, _) => Get
  }

  lemma StepOf(cfg: Config, run: seq<Action>, i: nat)
    requires i < |run|
    ensures Before(cfg, run, i + 1) == Step(cfg, Before(cfg, run, i), run[i]).1
  {
    assert run[..i + 1][..i] == run[..i];
  }

  /** Step `m` minted challenge `c` as the record `rec`. */
  predicate Minted(cfg: Config, run: seq<Action>, m: nat, c: nat, rec: Challenge) {
    m < |run| && run[m].Mint? && run[m].challenge == c &&
      rec == Challenge(run[m].user, run[m].ceremony, run[m].now + cfg.ttl)
  }

  /** A challenge is pending after a step if the step minted it, or else if it was pending before. */
  lemma StepKeepsPending(cfg: Config, s: State, a: Action, c: nat)
    requires c in Step(cfg, s, a).1.challenges
    ensures var rec := Step(cfg, s, a).1.challenges[c];
            if a.Mint? && a.challenge == c then rec == Challenge(a.user, a.ceremony, a.now + cfg.ttl)
            else c in s.challenges && s.challenges[c] == rec
  {
  }

  /** A pending challenge is as it was minted. */
  lemma {:induction false} PendingWasMinted(cfg: Config, run: seq<Action>, n: nat, c: nat) returns (m: nat)
    requires n <= |run| && c in Before(cfg, run, n).challenges
    ensures m < n && Minted(cfg, run, m, c, Before(cfg, run, n).challenges[c])
    decreases n
  {
    StepOf(cfg, run, n - 1);
    StepKeepsPending(cfg, Before(cfg, run, n - 1), run[n - 1], c);
    if run[n - 1].Mint? && run[n - 1].challenge == c {
      m := n - 1;
    } else {
      m := PendingWasMinted(cfg, run, n - 1, c);
    }
  }

  /** A challenge that is gone stays gone unless it is minted. */
  lemma {:induction false} StaysGone(cfg: Config, run: seq<Action>, c: nat, i: nat, j: nat)
    requires i <= j <= |run| && c !in Before(cfg, run, i).challenges
    requires forall k | i <= k < j :: run[k].Mint? ==> run[k].challenge != c
    ensures c !in Before(cfg, run, j).challenges
    decreases j
  {
    if i < j {
      StaysGone(cfg, run, c, i, j - 1);
      StepOf(cfg, run, j - 1);
      if c in Before(cfg, run, j).challenges {
        StepKeepsPending(cfg, Before(cfg, run, j - 1), run[j - 1], c);
      }
    }
  }

  lemma VerifiedConsumes(cfg: Config, run: seq<Action>, i: nat)
    requires i < |run| && Verified(cfg, run, i)
    ensures ChallengeOf(cfg, run[i]).Some?
    ensures var c := ChallengeOf(cfg, run[i]).value; var pending := Before(cfg, run, i).challenges;
            && c in pending && c !in Before(cfg, run, i + 1).challenges
            && pending[c].user == run[i].user && pending[c].ceremony == CeremonyOf(run[i]) &&
               run[i].now <= pending[c].expiresAt
  {
    StepOf(cfg, run, i);
  }

  /**
   * A success answers a challenge that was minted earlier in the run, for the
   * same user and ceremony, and no later than its expiry.
   */
  lemma SuccessAnswersItsChallenge(cfg: Config, run: seq<Action>, i: nat) returns (m: nat)
    requires i < |run| && Verified(cfg, run, i)
    ensures m < i && run[m].Mint? && ChallengeOf(cfg, run[i]) == Some(run[m].challenge)
    ensures run[m].user == run[i].user && run[m].ceremony == CeremonyOf(run[i]) && run[i].now <= run[m].now + cfg.ttl
  {
    VerifiedConsumes(cfg, run, i);
    m := PendingWasMinted(cfg, run, i, ChallengeOf(cfg, run[i]).value);
  }

  /** Over a whole run, no challenge leads to two successes. */
  lemma ChallengeSucceedsOnce(cfg: Config, run: seq<Action>, i: nat, j: nat)
    requires FreshChallenges(run) && i < j < |run| && Verified(cfg, run, i) && Verified(cfg, run, j)
    ensures ChallengeOf(cfg, run[i]) != ChallengeOf(cfg, run[j])
  {
    VerifiedConsumes(cfg, run, i);
    VerifiedConsumes(cfg, run, j);
    var c := ChallengeOf(cfg, run[i]).value;
    var m := PendingWasMinted(cfg, run, i, c);
    if ChallengeOf(cfg, run[j]) == Some(c) {
      StaysGone(cfg, run, c, i + 1, j);
    }
  }

  /**
   * An attempt uses up the pending challenge it names exactly when it names
   * its own ceremony; the source's comment promises this for every attempt.
   */
  lemma AttemptConsumes(cfg: Config, s: State, a: Action)
    requires !a.Mint? && ChallengeOf(cfg, a).Some? && ChallengeOf(cfg, a).value in s.challenges
    ensures ChallengeOf(cfg, a).value !in Step(cfg, s, a).1.challenges <==>
            cfg.parse(a.clientData).ceremony == CeremonyOf(a)
  {
  }

  /** Step `k` is an attempt that names this challenge in its own ceremony. */
  predicate UsesUp(cfg: Config, run: seq<Action>, k: nat, c: nat)
    requires k < |run|
  {
    && !run[k].Mint? && ChallengeOf(cfg, run[k]) == Some(c) &&
       cfg.parse(run[k].clientData).ceremony == CeremonyOf(run[k])
  }

  /** Step `m` minted the challenge and no attempt before step `n` used it up. */
  ghost predicate Outstanding(cfg: Config, run: seq<Action>, m: nat, n: nat, c: nat) {
    && m < n <= |run| && run[m].Mint? && run[m].challenge == c
    && forall k | m < k < n :: !UsesUp(cfg, run, k, c)
  }

  lemma {:induction false} OutstandingIsPending(cfg: Config, run: seq<Action>, m: nat, n: nat, c: nat)
    requires FreshChallenges(run) && Outstanding(cfg, run, m, n, c)
    ensures c in Before(cfg, run, n).challenges && Minted(cfg, run, m, c, Before(cfg, run, n).challenges[c])
    decreases n
  {
    StepOf(cfg, run, n - 1);
    if m < n - 1 {
      OutstandingIsPending(cfg, run, m, n - 1, c);
      assert !UsesUp(cfg, run, n - 1, c);
      StepLeavesPending(cfg, Before(cfg, run, n - 1), run[n - 1], c);
    }
  }

  lemma StepLeavesPending(cfg: Config, s: State, a: Action, c: nat)
    requires c in s.challenges && (a.Mint? ==> a.challenge != c)
    requires !a.Mint? && ChallengeOf(cfg, a) == Some(c) ==> cfg.parse(a.clientData).ceremony != CeremonyOf(a)
    ensures c in Step(cfg, s, a).1.challenges && Step(cfg, s, a).1.challenges[c] == s.challenges[c]
  {
  }

  /** In every run a challenge is pending exactly while it is minted and not used up. */
  lemma PendingExactly(cfg: Config, run: seq<Action>, n: nat, c: nat)
    requires FreshChallenges(run) && n <= |run|
    ensures c in Before(cfg, run, n).challenges <==> exists m | 0 <= m < n :: Outstanding(cfg, run, m, n, c)
  {
    if c in Before(cfg, run, n).challenges {
      var m := PendingWasMinted(cfg, run, n, c);
      forall k | m < k < n ensures !UsesUp(cfg, run, k, c) {
        if UsesUp(cfg, run, k, c) {
          UsedUpIsGone(cfg, run, k, c);
          StaysGone(cfg, run, c, k + 1, n);
          assert false;
        }
      }
      assert Outstanding(cfg, run, m, n, c);
    }
    if exists m | 0 <= m < n :: Outstanding(cfg, run, m, n, c) {
      var m :| 0 <= m < n && Outstanding(cfg, run, m, n, c);
      OutstandingIsPending(cfg, run, m, n, c);
    }
  }

  lemma UsedUpIsGone(cfg: Config, run: seq<Action>, k: nat, c: nat)
    requires k < |run| && UsesUp(cfg, run, k, c)
    ensures c !in Before(cfg, run, k + 1).challenges
  {
    StepOf(cfg, run, k);
  }

  /** What an attempt's client data has to say about a pending challenge. */
  predicate Answers(cfg: Config, a: Action, pending: map<nat, Challenge>)
    requires !a.Mint?
  {
    var data := cfg.parse(a.clientData);
    && data.Fields? && data.ceremony == CeremonyOf(a)
    && data.origin.Some? && data.origin.value in cfg.origins
    && data.challenge.Some? && data.challenge.value in pending
    && pending[data.challenge.value].user == a.user && pending[data.challenge.value].ceremony == CeremonyOf(a)
    && a.now <= pending[data.challenge.value].expiresAt
  }

  /**
   * The assertion is made with a credential of its user, over data for this
   * relying party with the user present, with a good signature and a new counter.
   */
  predicate IsGood(cfg: Config, credentials: map<Bytes, Passkey>, a: Action)
    requires a.Assert?
  {
    && a.id in credentials && credentials[a.id].user == a.user
    && |a.authData| >= 37 && a.authData[..32] == cfg.rpHash && UserPresent(a.authData[32])
    && cfg.verify(credentials[a.id].key, a.authData + cfg.sha256(a.clientData), a.signature) == Some(true)
    && (CounterOf(a) > credentials[a.id].signCount || (CounterOf(a) == 0 && credentials[a.id].signCount == 0))
  }

  /**
   * An assertion succeeds exactly when it answers a pending challenge of its
   * user, from an allowed origin and in time, with a credential of that user, data for this
   * relying party with the user present, a good signature, and a counter that is new.
   */
  lemma AssertionSucceedsExactly(cfg: Config, s: State, a: Action)
    requires a.Assert?
    ensures Step(cfg, s, a).0 == Success <==> Answers(cfg, a, s.challenges) && IsGood(cfg, s.credentials, a)
  {
    ClientDecides(cfg, s, a);
  }

  /** Step `m` minted the challenge for this attempt's user and ceremony, and it is still there. */
  ghost predicate Awaits(cfg: Config, run: seq<Action>, m: nat, i: nat, c: nat)
    requires i < |run|
  {
    Outstanding(cfg, run, m, i, c) && run[m].user == run[i].user && run[m].ceremony == CeremonyOf(run[i])
  }

  /**
   * Why an attempt is refused for its client data, said about the run: which
   * ceremony they name, whether their challenge awaits this attempt, since
   * when, and where they come from.
   */
  lemma ClientIsRefusedExactly(cfg: Config, run: seq<Action>, i: nat)
    requires FreshChallenges(run) && i < |run| && !run[i].Mint?
    ensures var outcome, data := OutcomeOf(cfg, run, i), cfg.parse(run[i].clientData);
            && (data.Unparsable? ==> outcome == Failure(MalformedClientData))
            && (data.Null? ==> outcome == Threw)
            && (data.Fields? && data.ceremony != CeremonyOf(run[i]) ==> outcome == Failure(WrongCeremony))
            && (data.Fields? && data.ceremony == CeremonyOf(run[i]) ==>
                  && (outcome == Failure(UnknownChallenge) <==>
                      data.challenge.None? || forall m: nat :: !Awaits(cfg, run, m, i, data.challenge.value))
                  && (outcome == Failure(Expired) <==>
                      && data.challenge.Some?
                      && exists m: nat ::
                           Awaits(cfg, run, m, i, data.challenge.value) && run[i].now > run[m].now + cfg.ttl)
                  && (outcome == Failure(BadOrigin) <==>
                      && data.challenge.Some? && (data.origin.None? || data.origin.value !in cfg.origins)
                      && exists m: nat ::
                           Awaits(cfg, run, m, i, data.challenge.value) && run[i].now <= run[m].now + cfg.ttl))
  {
    var data := cfg.parse(run[i].clientData);
    if data.Fields? && data.challenge.Some? {
      var c := data.challenge.value;
      forall m: nat | Outstanding(cfg, run, m, i, c)
        ensures c in Before(cfg, run, i).challenges && Minted(cfg, run, m, c, Before(cfg, run, i).challenges[c])
      {
        OutstandingIsPending(cfg, run, m, i, c);
      }
      PendingExactly(cfg, run, i, c);
      if c in Before(cfg, run, i).challenges {
        var m: nat :| m < i && Outstanding(cfg, run, m, i, c);
        assert run[m].user == run[i].user && run[m].ceremony == CeremonyOf(run[i]) ==> Awaits(cfg, run, m, i, c);
      }
    }
    LaterReasons(cfg, Before(cfg, run, i), run[i]);
  }

  /** Behind the client data there are other reasons to refuse. */
  lemma LaterReasons(cfg: Config, s: State, a: Action)
    requires !a.Mint?
    ensures var client := CheckClientData(cfg, s.challenges, a.now, cfg.parse(a.clientData), a.user, CeremonyOf(a)).0;
            if client == Success
            then Step(cfg, s, a).0 !in {Failure(UnknownChallenge), Failure(Expired), Failure(BadOrigin)}
            else Step(cfg, s, a).0 == client
  {
  }

  /** Why an assertion whose client data are in order is refused. */
  lemma AssertionIsRefusedExactly(cfg: Config, s: State, a: Action)
    requires a.Assert? && Answers(cfg, a, s.challenges)
    ensures var outcome := Step(cfg, s, a).0;
            var own := a.id in s.credentials && s.credentials[a.id].user == a.user;
            var present := |a.authData| >= 37 && a.authData[..32] == cfg.rpHash && UserPresent(a.authData[32]);
            && (outcome == Failure(UnknownCredential) <==> !own)
            && ((exists why :: outcome == Failure(BadAuthData(why))) <==> own && !present)
            && (own && present ==>
                  var signed := cfg.verify(s.credentials[a.id].key, a.authData + cfg.sha256(a.clientData), a.signature);
                  && (outcome == Threw <==> signed == None)
                  && (outcome == Failure(BadSignature) <==> signed == Some(false))
                  && (outcome == Failure(Regression) <==> signed == Some(true) && !IsGood(cfg, s.credentials, a)))
  {
    ClientDecides(cfg, s, a);
  }

  lemma ClientDecides(cfg: Config, s: State, a: Action)
    requires !a.Mint?
    ensures CheckClientData(cfg, s.challenges, a.now, cfg.parse(a.clientData), a.user, CeremonyOf(a)).0 == Success
            <==> Answers(cfg, a, s.challenges)
  {
  }

  // -------- credentials and sign counts --------

  /** What a step may do to a stored credential: nothing, or raise its count. */
  lemma StepKeepsCredential(cfg: Config, s: State, a: Action, id: Bytes)
    requires id in s.credentials
    ensures var after := Step(cfg, s, a).1.credentials;
            id in after && after[id].user == s.credentials[id].user && after[id].key == s.credentials[id].key
            && s.credentials[id].signCount <= after[id].signCount
  {
  }

  /** A credential is never dropped or rebound, and its count never decreases. */
  lemma {:induction false} SignCountNeverDecreases(cfg: Config, run: seq<Action>, id: Bytes, i: nat, j: nat)
    requires i <= j <= |run| && id in Before(cfg, run, i).credentials
    ensures id in Before(cfg, run, j).credentials
    ensures var early, late := Before(cfg, run, i).credentials[id], Before(cfg, run, j).credentials[id];
            early.user == late.user && early.key == late.key && early.signCount <= late.signCount
    decreases j
  {
    if i < j {
      SignCountNeverDecreases(cfg, run, id, i, j - 1);
      StepOf(cfg, run, j - 1);
      StepKeepsCredential(cfg, Before(cfg, run, j - 1), run[j - 1], id);
    }
  }

  /** The counter an assertion's authenticator data holds. */
  function CounterOf(a: Action): nat
    requires a.Assert?
  {
    if |a.authData| < 37 then 0 else ToUint32(SignCount(a.authData))
  }

  /**
   * An accepted nonzero counter is above every count stored for the credential
   * before, the registered one included; a zero counter is accepted only while all were zero.
   */
  lemma AcceptedCounterIsNew(cfg: Config, run: seq<Action>, i: nat, j: nat)
    requires i <= j < |run| && run[j].Assert? && Verified(cfg, run, j)
    requires run[j].id in Before(cfg, run, i).credentials
    ensures var earlier := Before(cfg, run, i).credentials[run[j].id].signCount;
            if CounterOf(run[j]) > 0 then CounterOf(run[j]) > earlier else earlier == 0
    ensures run[j].id in Before(cfg, run, j + 1).credentials
    ensures Before(cfg, run, j + 1).credentials[run[j].id].signCount == CounterOf(run[j])
  {
    SignCountNeverDecreases(cfg, run, run[j].id, i, j);
    StepOf(cfg, run, j);
  }

  /** Step `r` registered the credential `id`. */
  predicate Registered(cfg: Config, run: seq<Action>, r: nat, id: Bytes) {
    && r < |run| && run[r].Register? && Verified(cfg, run, r)
    && id !in Before(cfg, run, r).credentials && id in Before(cfg, run, r + 1).credentials
    && Before(cfg, run, r + 1).credentials[id].user == run[r].user
  }

  /** Only a successful registration adds a credential, under its user. */
  lemma StepAddsCredential(cfg: Config, s: State, a: Action, id: Bytes)
    requires id !in s.credentials && id in Step(cfg, s, a).1.credentials
    ensures a.Register? && Step(cfg, s, a).0 == Success && Step(cfg, s, a).1.credentials[id].user == a.user
  {
  }

  lemma {:induction false} CredentialWasRegistered(cfg: Config, run: seq<Action>, n: nat, id: Bytes) returns (r: nat)
    requires n <= |run| && id in Before(cfg, run, n).credentials
    ensures r < n && Registered(cfg, run, r, id)
    decreases n
  {
    StepOf(cfg, run, n - 1);
    if id in Before(cfg, run, n - 1).credentials {
      r := CredentialWasRegistered(cfg, run, n - 1, id);
    } else {
      StepAddsCredential(cfg, Before(cfg, run, n - 1), run[n - 1], id);
      r := n - 1;
    }
  }

  /**
   * An accepted assertion is signed, over its authenticator data and client
   * data, under the key that the same user registered earlier in the run.
   */
  lemma AssertionIsGenuine(cfg: Config, run: seq<Action>, j: nat) returns (r: nat)
    requires j < |run| && run[j].Assert? && Verified(cfg, run, j)
    ensures r < j && Registered(cfg, run, r, run[j].id) && run[r].user == run[j].user
    ensures cfg.verify(Before(cfg, run, r + 1).credentials[run[j].id].key,
                       run[j].authData + cfg.sha256(run[j].clientData), run[j].signature) == Some(true)
    ensures |run[j].authData| >= 37 && run[j].authData[..32] == cfg.rpHash && UserPresent(run[j].authData[32])
  {
    r := CredentialWasRegistered(cfg, run, j, run[j].id);
    SignCountNeverDecreases(cfg, run, run[j].id, r + 1, j);
  }

  /** A credential is registered once in a run. */
  lemma RegisteredOnce(cfg: Config, run: seq<Action>, i: nat, j: nat, id: Bytes)
    requires Registered(cfg, run, i, id) && Registered(cfg, run, j, id)
    ensures i == j
  {
    if i < j {
      SignCountNeverDecreases(cfg, run, id, i + 1, j);
    } else if j < i {
      SignCountNeverDecreases(cfg, run, id, j + 1, i);
    }
  }

  // -------- the service --------

  /** The repository and the challenge map, changed in place. */
  class PasskeyService {
    var challenges: map<nat, Challenge>
    var credentials: map<Bytes, Passkey>
    const cfg: Config

    constructor (cfg: Config)
      ensures this.cfg == cfg && Now() == INIT
    {
      this.cfg := cfg;
      challenges := map[];
      credentials := map[];
    }

    function Now(): State
      reads this
    {
      State(challenges, credentials)
    }

    method MintChallenge(user: string, ceremony: Ceremony, random: nat, now: int) returns (challenge: nat)
      modifies this
      ensures challenge == random
      ensures Now() == Step(cfg, old(Now()), Mint(user, ceremony, challenge, now)).1
    {
      challenge := random;
      challenges := challenges[challenge := Challenge(user, ceremony, now + cfg.ttl)];
    }

    method CheckClient(clientData: Bytes, user: string, expected: Ceremony, now: int) returns (r: Outcome)
      modifies this`challenges
      ensures (r, challenges) == CheckClientData(cfg, old(challenges), now, cfg.parse(clientData), user, expected)
    {
      var data := cfg.parse(clientData);
      if data.Unparsable? {
        return Failure(MalformedClientData);
      }
      if data.Null? {
        return Threw;
      }
      if data.ceremony != expected {
        return Failure(WrongCeremony);
      }
      var rec := if data.challenge.Some? && data.challenge.value in challenges
        then Some(challenges[data.challenge.value]) else None;
      if rec.Some? {
        challenges := challenges - {data.challenge.value};
      }
      if rec.None? || rec.value.ceremony != expected || rec.value.user != user {
        return Failure(UnknownChallenge);
      }
      if now > rec.value.expiresAt {
        return Failure(Expired);
      }
      if data.origin.None? || data.origin.value !in cfg.origins {
        return Failure(BadOrigin);
      }
      r := Success;
    }

    method VerifyRegistration(user: string, clientData: Bytes, attestation: Bytes, now: int) returns (r: Outcome)
      modifies this
      ensures (r, Now()) == Step(cfg, old(Now()), Register(user, clientData, attestation, now))
    {
      var client := CheckClient(clientData, user, Create, now);
      if client != Success {
        return client;
      }
      var authData := AttestedData(attestation);
      if authData.None? {
        return Failure(MalformedAttestation);
      }
      if authData.value.None? {
        return Failure(MissingAuthData);
      }
      var parsed := CheckAuthData(cfg.rpHash, authData.value.value, true);
      if parsed.Refused? {
        return Failure(BadAuthData(parsed.reason));
      }
      if parsed.Throws? || parsed.credential.None? {
        return Threw;
      }
      var found := parsed.credential.value;
      if found.id in credentials {
        return Failure(AlreadyRegistered);
      }
      var key := CoseToJwk(found.cose);
      if key.None? {
        return Failure(UnsupportedKey);
      }
      credentials := credentials[found.id := Passkey(user, key.value, parsed.signCount)];
      r := Success;
    }

    method VerifyAssertion(user: string, id: Bytes, clientData: Bytes, authData: Bytes, signature: Bytes, now: int)
      returns (r: Outcome)
      modifies this
      ensures (r, Now()) == Step(cfg, old(Now()), Assert(user, id, clientData, authData, signature, now))
    {
      var client := CheckClient(clientData, user, Get, now);
      if client != Success {
        return client;
      }
      if id !in credentials || credentials[id].user != user {
        return Failure(UnknownCredential);
      }
      var cred := credentials[id];
      var parsed := CheckAuthData(cfg.rpHash, authData, false);
      if parsed.Refused? {
        return Failure(BadAuthData(parsed.reason));
      }
      if parsed.Throws? {
        return Threw;
      }
      var valid := cfg.verify(cred.key, authData + cfg.sha256(clientData), signature);
      if valid.None? {
        return Threw;
      }
      if !valid.value {
        return Failure(BadSignature);
      }
      if parsed.signCount > 0 || cred.signCount > 0 {
        if parsed.signCount <= cred.signCount {
          return Failure(Regression);
        }
        credentials := credentials[id := cred.(signCount := parsed.signCount)];
      }
      assert credentials == old(credentials)[id := cred.(signCount := parsed.signCount)];
      r := Success;
    }
  }
}
