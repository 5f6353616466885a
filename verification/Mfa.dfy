/** One-time codes as a second factor: a secret is handed out, confirmed by a code, and only then verified against. */
module Mfa {
  import opened Common

  datatype Record = Record(secret: string, confirmed: bool)

  type Store = map<string, Record>

  /** Whether a code is right for a secret at a time; `None` is an exception. */
  type Verifier = (string, string, int) -> Option<bool>

  datatype Action =
    | Start(user: string, secret: string)               // `secret` is the random one that the server draws
    | Confirm(user: string, code: string, now: int)

  function Step(accepts: Verifier, store: Store, a: Action): (Option<bool>, Store) {
    match a
    case Start(user, secret) => (Some(true), store[user := Record(secret, false)])
    case Confirm(user, code, now) =>
      if user !in store then (Some(false), store)
      else
        match accepts(store[user].secret, code, now)
        case Some(true) => (Some(true), store[user := store[user].(confirmed := true)])
        case answer => (answer, store)
  }

  /** A code at login, against the confirmed secret. */
  function Verify(accepts: Verifier, store: Store, user: string, code: string, now: int): Option<bool> {
    if user !in store || !store[user].confirmed then Some(false) else accepts(store[user].secret, code, now)
  }

  function Reach(accepts: Verifier, run: seq<Action>): Store
    decreases |run|
  {
    if run == [] then map[] else Step(accepts, Reach(accepts, run[..|run| - 1]), run[|run| - 1]).1
  }

  function Before(accepts: Verifier, run: seq<Action>, i: nat): Store
    requires i <= |run|
  {
    Reach(accepts, run[..i])
  }

  lemma StepOf(accepts: Verifier, run: seq<Action>, i: nat)
    requires i < |run|
    ensures Before(accepts, run, i + 1) == Step(accepts, Before(accepts, run, i), run[i]).1
  {
    assert run[..i + 1][..i] == run[..i];
  }

  /** Step `s` drew the user's newest secret before step `n`. */
  predicate NewestStart(run: seq<Action>, s: nat, n: nat, user: string) {
    && s < n <= |run| && run[s].Start? && run[s].user == user
    && forall k | s < k < n :: run[k].Start? ==> run[k].user != user
  }

  /** Step `c` confirmed the secret of step `s` with a right code. */
  predicate Confirms(accepts: Verifier, run: seq<Action>, s: nat, c: nat) {
    && s < c < |run| && run[s].Start? && run[c].Confirm? && run[c].user == run[s].user
    && accepts(run[s].secret, run[c].code, run[c].now) == Some(true)
  }

  /** What is stored for a user is the newest secret, confirmed exactly if a right code for it followed. */
  lemma {:induction false} NewestIsStored(accepts: Verifier, run: seq<Action>, s: nat, n: nat, user: string)
    requires NewestStart(run, s, n, user)
    ensures user in Before(accepts, run, n)
    ensures Before(accepts, run, n)[user] == Record(run[s].secret, exists c | s < c < n :: Confirms(accepts, run, s, c))
    decreases n
  {
    StepOf(accepts, run, n - 1);
    if s < n - 1 {
      NewestIsStored(accepts, run, s, n - 1, user);
      assert (exists c | s < c < n :: Confirms(accepts, run, s, c)) <==>
             (exists c | s < c < n - 1 :: Confirms(accepts, run, s, c)) || Confirms(accepts, run, s, n - 1);
    }
  }

  lemma {:induction false} StoredWasStarted(accepts: Verifier, run: seq<Action>, n: nat, user: string) returns (s: nat)
    requires n <= |run| && user in Before(accepts, run, n)
    ensures NewestStart(run, s, n, user)
    decreases n
  {
    StepOf(accepts, run, n - 1);
    if run[n - 1].Start? && run[n - 1].user == user {
      s := n - 1;
    } else {
      s := StoredWasStarted(accepts, run, n - 1, user);
    }
  }

  /** Steps `s` and `c` drew and confirmed the user's newest secret, and the code is right for it. */
  ghost predicate Enrolled(accepts: Verifier, run: seq<Action>, s: nat, c: nat, user: string, code: string, now: int) {
    && NewestStart(run, s, |run|, user) && Confirms(accepts, run, s, c)
    && accepts(run[s].secret, code, now) == Some(true)
  }

  /**
   * In every run a code is accepted if and only if the user's newest secret
   * was confirmed with a right code and this one is right for it too; there is
   * an exception exactly if checking this one against that secret throws.
   */
  lemma CodeIsAcceptedExactly(accepts: Verifier, run: seq<Action>, user: string, code: string, now: int)
    ensures Verify(accepts, Reach(accepts, run), user, code, now) == Some(true) <==>
            exists s: nat, c: nat :: Enrolled(accepts, run, s, c, user, code, now)
    ensures Verify(accepts, Reach(accepts, run), user, code, now) == None <==>
            exists s: nat, c: nat ::
              && NewestStart(run, s, |run|, user) && Confirms(accepts, run, s, c)
              && accepts(run[s].secret, code, now) == None
  {
    assert run[..|run|] == run;
    if Verify(accepts, Reach(accepts, run), user, code, now) == None {
      var s := StoredWasStarted(accepts, run, |run|, user);
      NewestIsStored(accepts, run, s, |run|, user);
      var c :| s < c < |run| && Confirms(accepts, run, s, c);
    }
    forall s: nat, c: nat | NewestStart(run, s, |run|, user) && Confirms(accepts, run, s, c)
      ensures Verify(accepts, Reach(accepts, run), user, code, now) == accepts(run[s].secret, code, now)
    {
      NewestIsStored(accepts, run, s, |run|, user);
    }
    if Verify(accepts, Reach(accepts, run), user, code, now) == Some(true) {
      var s := StoredWasStarted(accepts, run, |run|, user);
      NewestIsStored(accepts, run, s, |run|, user);
      var c :| s < c < |run| && Confirms(accepts, run, s, c);
      assert Enrolled(accepts, run, s, c, user, code, now);
    }
    if s: nat, c: nat :| Enrolled(accepts, run, s, c, user, code, now) {
      NewestIsStored(accepts, run, s, |run|, user);
    }
  }

  /**
   * A confirmation is answered by what the code is for the newest secret:
   * right, wrong, or an exception; without a secret it is wrong.
   */
  lemma ConfirmIsAnsweredExactly(accepts: Verifier, run: seq<Action>, i: nat, answer: Option<bool>)
    requires i < |run| && run[i].Confirm?
    ensures Step(accepts, Before(accepts, run, i), run[i]).0 == answer <==>
            if exists s: nat :: NewestStart(run, s, i, run[i].user)
            then exists s: nat ::
                   NewestStart(run, s, i, run[i].user) && accepts(run[s].secret, run[i].code, run[i].now) == answer
            else answer == Some(false)
  {
    var user := run[i].user;
    if user in Before(accepts, run, i) {
      var s := StoredWasStarted(accepts, run, i, user);
    }
    forall s: nat | NewestStart(run, s, i, user)
      ensures user in Before(accepts, run, i) && Before(accepts, run, i)[user].secret == run[s].secret
    {
      NewestIsStored(accepts, run, s, i, user);
    }
  }

  class MfaService {
    var items: Store
    const accepts: Verifier

    constructor (accepts: Verifier)
      ensures this.accepts == accepts && items == map[]
    {
      this.accepts := accepts;
      items := map[];
    }

    method StartEnrollment(user: string, random: string) returns (secret: string)
      modifies this
      ensures secret == random && items == Step(accepts, old(items), Start(user, secret)).1
    {
      secret := random;
      items := items[user := Record(secret, false)];
    }

    method ConfirmEnrollment(user: string, code: string, now: int) returns (ok: Option<bool>)
      modifies this
      ensures (ok, items) == Step(accepts, old(items), Confirm(user, code, now))
    {
      if user !in items {
        return Some(false);
      }
      ok := accepts(items[user].secret, code, now);
      if ok == Some(true) {
        items := items[user := items[user].(confirmed := true)];
      }
    }

    method VerifyCode(user: string, code: string, now: int) returns (ok: Option<bool>)
      ensures ok == Verify(accepts, items, user, code, now)
    {
      if user !in items || !items[user].confirmed {
        return Some(false);
      }
      ok := accepts(items[user].secret, code, now);
    }
  }
}
