/** Challenges that an enrolled device answers with its own signing key. */
module DeviceChallenges {
  import opened Common
  import opened Crypto
  import CompositeKey
  import Devices

  const TTL: int := 2 * 60 * 1000

  datatype Record = Record(challenge: string, expiresAt: int, used: bool)

  datatype State = State(devices: Devices.Store, pending: map<string, Record>)

  /** `None` is the exception of a stored key that does not parse. */
  type Outcome = Option<bool>

  /** Device requests run between challenges and answers. */
  datatype Action =
    | OnDevices(request: Devices.Action)
    | Create(user: string, device: string, challenge: string, now: int)
    | Answer(user: string, device: string, challenge: string, signature: Signature, now: int)

  const INIT := State(map[], map[])

  /** Whether a pending challenge admits this answer. */
  predicate Admits(pending: map<string, Record>, key: string, challenge: string, now: int) {
    key in pending && !pending[key].used && pending[key].challenge == challenge && now <= pending[key].expiresAt
  }

  function Step(repo: Devices.Repo, s: State, a: Action): (Outcome, State) {
    match a
    case OnDevices(request) => (Some(true), s.(devices := Devices.Step(repo, s.devices, request).1))
    case Create(user, device, challenge, now) =>
      (Some(true), s.(pending := s.pending[CompositeKey.Join(user, device) := Record(challenge, now + TTL, false)]))
    case Answer(user, device, challenge, signature, now) =>
      var key := CompositeKey.Join(user, device);
      if !Admits(s.pending, key, challenge, now) then (Some(false), s)
      else
        var used := s.(pending := s.pending[key := s.pending[key].(used := true)]);
        if !Devices.IsApproved(repo, s.devices, user, device) then (Some(false), used)
        else (VerifyMessage(Devices.Get(repo, s.devices, user, device).value.signingKey, challenge, signature), used)
  }

  function Reach(repo: Devices.Repo, run: seq<Action>): State
    decreases |run|
  {
    if run == [] then INIT else Step(repo, Reach(repo, run[..|run| - 1]), run[|run| - 1]).1
  }

  function Before(repo: Devices.Repo, run: seq<Action>, i: nat): State
    requires i <= |run|
  {
    Reach(repo, run[..i])
  }

  lemma StepOf(repo: Devices.Repo, run: seq<Action>, i: nat)
    requires i < |run|
    ensures Before(repo, run, i + 1) == Step(repo, Before(repo, run, i), run[i]).1
  {
    assert run[..i + 1][..i] == run[..i];
  }

  /** Random challenges are fresh, and user ids hold no separator. */
  ghost predicate Proper(run: seq<Action>) {
    && (forall i, j | 0 <= i < j < |run| && run[i].Create? && run[j].Create? :: run[i].challenge != run[j].challenge)
    && (forall i | 0 <= i < |run| && !run[i].OnDevices? :: CompositeKey.Plain(run[i].user))
  }

  predicate Verified(repo: Devices.Repo, run: seq<Action>, i: nat)
    requires i < |run|
  {
    run[i].Answer? && Step(repo, Before(repo, run, i), run[i]).0 == Some(true)
  }

  /** Step `m` created what is pending for a device, and nothing replaced it before step `n`. */
  predicate CreatedAt(run: seq<Action>, m: nat, n: nat, user: string, device: string, challenge: string) {
    && m < n <= |run| && run[m].Create? && run[m].user == user && run[m].device == device &&
       run[m].challenge == challenge
    && forall k | m < k < n :: run[k].Create? ==> run[k].user != user || run[k].device != device
  }

  lemma {:induction false} PendingWasCreated(repo: Devices.Repo, run: seq<Action>, n: nat, user: string, device: string)
    returns (m: nat)
    requires Proper(run) && CompositeKey.Plain(user) && n <= |run|
    requires CompositeKey.Join(user, device) in Before(repo, run, n).pending
    ensures var rec := Before(repo, run, n).pending[CompositeKey.Join(user, device)];
            CreatedAt(run, m, n, user, device, rec.challenge) && rec.expiresAt == run[m].now + 120_000
    decreases n
  {
    var a, key := run[n - 1], CompositeKey.Join(user, device);
    StepOf(repo, run, n - 1);
    if a.Create? && CompositeKey.Join(a.user, a.device) == key {
      CompositeKey.JoinIsInjective(user, device, a.user, a.device);
      m := n - 1;
    } else {
      m := PendingWasCreated(repo, run, n - 1, user, device);
    }
  }

  /**
   * A success answers the newest challenge of exactly this user and device, in
   * time, from a device approved at that moment, with a signature under its key.
   */
  lemma SuccessAnswersItsChallenge(repo: Devices.Repo, run: seq<Action>, i: nat) returns (m: nat)
    requires Proper(run) && i < |run| && Verified(repo, run, i)
    ensures CreatedAt(run, m, i, run[i].user, run[i].device, run[i].challenge)
    ensures run[i].now <= run[m].now + 120_000
    ensures Devices.IsApproved(repo, Before(repo, run, i).devices, run[i].user, run[i].device)
    ensures VerifyMessage(Devices.Get(repo, Before(repo, run, i).devices, run[i].user, run[i].device).value.signingKey,
                          run[i].challenge, run[i].signature) == Some(true)
  {
    m := PendingWasCreated(repo, run, i, run[i].user, run[i].device);
  }

  /** Once used, a challenge admits nothing under its key until a new one replaces it. */
  lemma {:induction false} UsedStaysUsed(repo: Devices.Repo, run: seq<Action>, key: string, challenge: string, i: nat,
                                         j: nat)
    requires i <= j <= |run|
    requires forall k | i <= k < j :: run[k].Create? ==> run[k].challenge != challenge
    requires key in Before(repo, run, i).pending ==>
               Before(repo, run, i).pending[key].used || Before(repo, run, i).pending[key].challenge != challenge
    ensures key in Before(repo, run, j).pending ==>
              Before(repo, run, j).pending[key].used || Before(repo, run, j).pending[key].challenge != challenge
    decreases j
  {
    if i < j {
      UsedStaysUsed(repo, run, key, challenge, i, j - 1);
      StepOf(repo, run, j - 1);
    }
  }

  /** Over a whole run, no challenge leads to two successes, whoever presents it. */
  lemma ChallengeSucceedsOnce(repo: Devices.Repo, run: seq<Action>, i: nat, j: nat)
    requires Proper(run) && i < j < |run| && Verified(repo, run, i) && Verified(repo, run, j)
    ensures run[i].challenge != run[j].challenge
  {
    var m := SuccessAnswersItsChallenge(repo, run, i);
    var n := SuccessAnswersItsChallenge(repo, run, j);
    if run[i].challenge == run[j].challenge {
      assert m == n;
      StepOf(repo, run, i);
      UsedStaysUsed(repo, run, CompositeKey.Join(run[i].user, run[i].device), run[i].challenge, i + 1, j);
    }
  }

  /** Step `k` presents the challenge of step `m` in time, and so uses it up. */
  predicate Presents(run: seq<Action>, m: nat, k: nat) {
    && m < k < |run| && run[m].Create? && run[k].Answer?
    && run[k].user == run[m].user && run[k].device == run[m].device
    && run[k].challenge == run[m].challenge && run[k].now <= run[m].now + 120_000
  }

  /** Step `m` created the newest challenge of the pair before step `n`. */
  predicate Newest(run: seq<Action>, m: nat, n: nat, user: string, device: string) {
    m < n <= |run| && run[m].Create? && CreatedAt(run, m, n, user, device, run[m].challenge)
  }

  /** What is pending for a pair is its newest challenge, used exactly if it was presented. */
  lemma {:induction false} NewestIsPending(repo: Devices.Repo, run: seq<Action>, m: nat, n: nat, user: string,
                                           device: string)
    requires Proper(run) && CompositeKey.Plain(user) && Newest(run, m, n, user, device)
    ensures var key := CompositeKey.Join(user, device);
            && key in Before(repo, run, n).pending
            && Before(repo, run, n).pending[key] ==
               Record(run[m].challenge, run[m].now + 120_000, exists k | m < k < n :: Presents(run, m, k))
    decreases n
  {
    var key := CompositeKey.Join(user, device);
    StepOf(repo, run, n - 1);
    if m < n - 1 {
      NewestIsPending(repo, run, m, n - 1, user, device);
      var a := run[n - 1];
      if !a.OnDevices? && CompositeKey.Join(a.user, a.device) == key {
        CompositeKey.JoinIsInjective(user, device, a.user, a.device);
      }
      assert (exists k | m < k < n :: Presents(run, m, k)) <==>
             (exists k | m < k < n - 1 :: Presents(run, m, k)) || Presents(run, m, n - 1);
    }
  }

  /** Step `i` presents the newest challenge of its pair, and is the first to. */
  ghost predicate PresentsFirst(run: seq<Action>, m: nat, i: nat) {
    && Presents(run, m, i) && Newest(run, m, i, run[i].user, run[i].device)
    && forall k | m < k < i :: !Presents(run, m, k)
  }

  /**
   * An answer succeeds if and only if it presents the newest challenge of its
   * user and device, in time and for the first time, from a device approved at
   * that moment, with a signature under its key; it throws exactly if all but
   * the signature is so and the key does not parse.
   */
  lemma AnswerSucceedsExactly(repo: Devices.Repo, run: seq<Action>, i: nat)
    requires Proper(run) && i < |run| && run[i].Answer?
    ensures Verified(repo, run, i) <==>
            && (exists m :: PresentsFirst(run, m, i))
            && Devices.IsApproved(repo, Before(repo, run, i).devices, run[i].user, run[i].device)
            && VerifyMessage(Devices.Get(repo, Before(repo, run, i).devices, run[i].user,
               run[i].device).value.signingKey,
                             run[i].challenge, run[i].signature) == Some(true)
    ensures Step(repo, Before(repo, run, i), run[i]).0 == None <==>
            && (exists m :: PresentsFirst(run, m, i))
            && Devices.IsApproved(repo, Before(repo, run, i).devices, run[i].user, run[i].device)
            && Devices.Get(repo, Before(repo, run, i).devices, run[i].user, run[i].device).value.signingKey.Malformed?
  {
    var user, device := run[i].user, run[i].device;
    if Admits(Before(repo, run, i).pending, CompositeKey.Join(user, device), run[i].challenge, run[i].now) {
      var m := PendingWasCreated(repo, run, i, user, device);
      NewestIsPending(repo, run, m, i, user, device);
      assert PresentsFirst(run, m, i);
    }
    if Verified(repo, run, i) {
      var m := SuccessAnswersItsChallenge(repo, run, i);
      assert Newest(run, m, i, user, device);
      NewestIsPending(repo, run, m, i, user, device);
      assert PresentsFirst(run, m, i);
    }
    if exists m :: PresentsFirst(run, m, i) {
      var m :| PresentsFirst(run, m, i);
      NewestIsPending(repo, run, m, i, user, device);
    }
  }

  /** The device requests of a run, in order: what its device store comes from. */
  function DeviceRequests(run: seq<Action>): seq<Devices.Action>
    decreases |run|
  {
    if run == [] then []
    else
      var front, last := DeviceRequests(run[..|run| - 1]), run[|run| - 1];
      if last.OnDevices? then front + [last.request] else front
  }

  lemma OtherStepsKeepDevices(repo: Devices.Repo, s: State, a: Action)
    ensures Step(repo, s, a).1.devices == if a.OnDevices? then Devices.Step(repo, s.devices, a.request).1 else s.devices
  {
  }

  lemma {:induction false} DevicesReached(repo: Devices.Repo, run: seq<Action>)
    ensures Reach(repo, run).devices == Devices.Reach(repo, DeviceRequests(run))
    decreases |run|
  {
    if run != [] {
      var front, last := run[..|run| - 1], run[|run| - 1];
      DevicesReached(repo, front);
      OtherStepsKeepDevices(repo, Reach(repo, front), last);
      if last.OnDevices? {
        var requests := DeviceRequests(front) + [last.request];
        assert requests[..|requests| - 1] == DeviceRequests(front);
      }
    }
  }

  /**
   * So a success rests on a whole chain of signed approvals from a first
   * device. It is the user's own chain exactly when records are found by
   * pairs, or neither the device of the answer nor an approver in the chain is
   * named with a separator.
   */
  lemma SuccessHasTrustChain(repo: Devices.Repo, run: seq<Action>, i: nat) returns (links: seq<Devices.Link>)
    requires Proper(run) && i < |run| && Verified(repo, run, i) && Devices.Proper(DeviceRequests(run[..i]))
    ensures var requests := DeviceRequests(run[..i]);
            && Devices.NamedChain(repo, requests, |requests|, run[i].user, run[i].device, links)
            && (Devices.Chain(requests, |requests|, run[i].user, run[i].device, links) <==>
                repo.File? || (CompositeKey.Plain(run[i].device) && Devices.PlainLinks(repo, requests, links)))
  {
    var m := SuccessAnswersItsChallenge(repo, run, i);
    var requests := DeviceRequests(run[..i]);
    DevicesReached(repo, run[..i]);
    assert requests[..|requests|] == requests;
    links := Devices.ApprovedHasChain(repo, requests, |requests|, run[i].user, run[i].device);
    Devices.ChainIsOwnExactly(repo, requests, |requests|, run[i].user, run[i].device, links);
  }

  /** The challenge store beside the device service. */
  class WebauthnService {
    var store: map<string, Record>
    const devices: Devices.DeviceService

    constructor (devices: Devices.DeviceService)
      ensures this.devices == devices && store == map[]
    {
      this.devices := devices;
      store := map[];
    }

    function Now(): State
      reads this, devices
    {
      State(devices.items, store)
    }

    method CreateChallenge(user: string, device: string, random: string, now: int) returns (challenge: string)
      modifies this
      ensures challenge == random
      ensures Now() == Step(devices.repo, old(Now()), Create(user, device, challenge, now)).1
    {
      challenge := random;
      store := store[CompositeKey.Join(user, device) := Record(challenge, now + TTL, false)];
    }

    method VerifyAssertion(user: string, device: string, challenge: string, signature: Signature, now: int)
      returns (r: Outcome)
      modifies this
      ensures (r, Now()) == Step(devices.repo, old(Now()), Answer(user, device, challenge, signature, now))
    {
      var key := CompositeKey.Join(user, device);
      if key !in store {
        return Some(false);
      }
      var rec := store[key];
      if rec.used || rec.challenge != challenge || now > rec.expiresAt {
        return Some(false);
      }
      store := store[key := rec.(used := true)];
      var found := Devices.Get(devices.repo, devices.items, user, device);
      if found.None? || !found.value.approved {
        return Some(false);
      }
      r := VerifyMessage(found.value.signingKey, challenge, signature);
    }
  }
}
