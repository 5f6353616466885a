/** Emergency contacts: a signed request starts a waiting period that the owner can end with a denial. */
module Emergency {
  import opened Common
  import opened Crypto

  datatype Phase = Enrolled | Pending(unlockAt: int) | Denied | Released

  /** The key material that the owner sealed to the contact. */
  datatype Sealed = Sealed(ephemeralKey: string, wrappedKey: string)

  datatype Contact = Contact(user: string, signingKey: PublicKey, sealed: Sealed, phase: Phase)

  datatype Notice = Requested(id: string) | Refusal(id: string) | Release(id: string)

  /** The stored contacts, and the notices sent so far. */
  datatype State = State(contacts: map<string, Contact>, notices: seq<Notice>)

  datatype Outcome =
    | Added(ok: bool) | Asked(unlockAt: Option<int>) | DenialMade(ok: bool)
    | Handed(sealed: Sealed) | Wait(until: int) | Nothing

  /** `now` is the clock at the request; `id` in `Add` is the random id of the new contact. */
  datatype Action =
    | Add(id: string, user: string, signingKey: PublicKey, sealed: Sealed)
    | Request(id: string, signature: Signature, now: int)
    | Deny(id: string, user: string)
    | Collect(id: string, signature: Signature, now: int)

  const INIT := State(map[], [])

  /** A key that does not parse verifies nothing: the exception is caught. */
  predicate SignedBy(key: PublicKey, message: string, signature: Signature) {
    VerifyMessage(key, message, signature) == Some(true)
  }

  function RequestMessage(id: string): string {
    "emergency-request:" + id
  }

  function CollectMessage(id: string): string {
    "emergency-collect:" + id
  }

  predicate HasMaterial(signingKey: PublicKey, sealed: Sealed) {
    signingKey != Malformed("") && sealed.ephemeralKey != "" && sealed.wrappedKey != ""
  }

  function Moved(s: State, id: string, phase: Phase, notice: Notice): State
    requires id in s.contacts
  {
    State(s.contacts[id := s.contacts[id].(phase := phase)], s.notices + [notice])
  }

  function Step(wait: int, s: State, a: Action): (Outcome, State) {
    match a
    case Add(id, user, signingKey, sealed) =>
      if !HasMaterial(signingKey, sealed) then (Added(false), s)
      else (Added(true), s.(contacts := s.contacts[id := Contact(user, signingKey, sealed, Enrolled)]))
    case Request(id, signature, now) =>
      if id !in s.contacts || !SignedBy(s.contacts[id].signingKey, RequestMessage(id), signature) then (Asked(None), s)
      else
        (match s.contacts[id].phase
         case Denied => (Asked(None), s)
         case Released => (Asked(None), s)
         case Pending(unlockAt) => (Asked(Some(unlockAt)), s)
         case Enrolled => (Asked(Some(now + wait)), Moved(s, id, Pending(now + wait), Requested(id))))
    case Deny(id, user) =>
      if id !in s.contacts || s.contacts[id].user != user || !s.contacts[id].phase.Pending? then (DenialMade(false), s)
      else (DenialMade(true), Moved(s, id, Denied, Refusal(id)))
    case Collect(id, signature, now) =>
      if id !in s.contacts || !SignedBy(s.contacts[id].signingKey, CollectMessage(id), signature) then (Nothing, s)
      else
        (match s.contacts[id].phase
         case Denied => (Nothing, s)
         case Enrolled => (Nothing, s)
         case Released => (Handed(s.contacts[id].sealed), s)
         case Pending(unlockAt) =>
           if now < unlockAt then (Wait(unlockAt), s)
           else (Handed(s.contacts[id].sealed), Moved(s, id, Released, Release(id))))
  }

  function Reach(wait: int, run: seq<Action>): State
    decreases |run|
  {
    if run == [] then INIT else Step(wait, Reach(wait, run[..|run| - 1]), run[|run| - 1]).1
  }

  function Before(wait: int, run: seq<Action>, i: nat): State
    requires i <= |run|
  {
    Reach(wait, run[..i])
  }

  lemma StepOf(wait: int, run: seq<Action>, i: nat)
    requires i < |run|
    ensures Before(wait, run, i + 1) == Step(wait, Before(wait, run, i), run[i]).1
  {
    assert run[..i + 1][..i] == run[..i];
  }

  /** Contact ids are fresh. */
  ghost predicate FreshIds(run: seq<Action>) {
    forall i, j | 0 <= i < j < |run| && run[i].Add? && run[j].Add? :: run[i].id != run[j].id
  }

  // -------- what happened to a contact, said about the requests alone --------

  /** Step `a` enrolled a contact. */
  predicate Enrolls(run: seq<Action>, a: nat) {
    a < |run| && run[a].Add? && HasMaterial(run[a].signingKey, run[a].sealed)
  }

  /** Step `k` is the contact's own, properly signed request. */
  predicate Asks(run: seq<Action>, a: nat, k: nat)
    requires Enrolls(run, a)
  {
    a < k < |run| && run[k].Request? && run[k].id == run[a].id
    && SignedBy(run[a].signingKey, RequestMessage(run[a].id), run[k].signature)
  }

  /** Step `k` is a denial by the contact's owner. */
  predicate Denies(run: seq<Action>, a: nat, k: nat)
    requires Enrolls(run, a)
  {
    a < k < |run| && run[k].Deny? && run[k].id == run[a].id && run[k].user == run[a].user
  }

  /** Step `k` is the contact's own, properly signed attempt to collect. */
  predicate Collects(run: seq<Action>, a: nat, k: nat)
    requires Enrolls(run, a)
  {
    a < k < |run| && run[k].Collect? && run[k].id == run[a].id
    && SignedBy(run[a].signingKey, CollectMessage(run[a].id), run[k].signature)
  }

  /** Step `r` is the first request before step `n`; it alone starts the timer. */
  ghost predicate Starts(run: seq<Action>, a: nat, r: nat, n: nat)
    requires Enrolls(run, a)
  {
    r < n && Asks(run, a, r) && forall k | a < k < r :: !Asks(run, a, k)
  }

  /** Step `c` is an attempt to collect when the waiting period from `r` is over. */
  predicate Ripe(wait: int, run: seq<Action>, a: nat, r: nat, c: nat)
    requires Enrolls(run, a) && Asks(run, a, r)
  {
    r < c && Collects(run, a, c) && run[c].now >= run[r].now + wait
  }

  /** Between `r` and `n` the contact is left waiting. */
  ghost predicate StillWaits(wait: int, run: seq<Action>, a: nat, r: nat, n: nat)
    requires Enrolls(run, a) && Asks(run, a, r)
  {
    forall k | r < k < n :: !Denies(run, a, k) && !Ripe(wait, run, a, r, k)
  }

  ghost predicate NeverAsked(run: seq<Action>, a: nat, n: nat)
    requires Enrolls(run, a)
  {
    forall k | a < k < n :: !Asks(run, a, k)
  }

  ghost predicate WaitsSince(wait: int, run: seq<Action>, a: nat, n: nat, r: nat)
    requires Enrolls(run, a)
  {
    Starts(run, a, r, n) && StillWaits(wait, run, a, r, n)
  }

  /** The wait that began at `r` ended at `e`, in a denial or in a release. */
  ghost predicate WaitEnds(wait: int, run: seq<Action>, a: nat, n: nat, r: nat, e: nat, denied: bool)
    requires Enrolls(run, a)
  {
    && Starts(run, a, r, n) && r < e < n && StillWaits(wait, run, a, r, e)
    && if denied then Denies(run, a, e) else Ripe(wait, run, a, r, e)
  }

  /** The phase a contact's requests have brought it to by step `n`. */
  ghost predicate PhaseFits(wait: int, run: seq<Action>, a: nat, n: nat, phase: Phase)
    requires Enrolls(run, a)
  {
    match phase
    case Enrolled => NeverAsked(run, a, n)
    case Pending(unlockAt) => exists r | 0 <= r < n :: WaitsSince(wait, run, a, n, r) && unlockAt == run[r].now + wait
    case Denied => exists r, e | 0 <= r < n && 0 <= e < n :: WaitEnds(wait, run, a, n, r, e, true)
    case Released => exists r, e | 0 <= r < n && 0 <= e < n :: WaitEnds(wait, run, a, n, r, e, false)
  }

  /** The phases exclude each other, so the requests determine the phase. */
  lemma PhaseIsUnique(wait: int, run: seq<Action>, a: nat, n: nat, p: Phase, q: Phase)
    requires Enrolls(run, a) && PhaseFits(wait, run, a, n, p) && PhaseFits(wait, run, a, n, q)
    ensures p == q
  {
  }

  /** What a step does to a contact that is not enrolled anew. */
  lemma StepMovesContact(wait: int, s: State, a: Action, id: string)
    requires id in s.contacts && (a.Add? ==> a.id != id)
    ensures var c, after := s.contacts[id], Step(wait, s, a).1.contacts;
            && id in after
            && after[id] == c.(phase :=
                 if a.Request? && a.id == id && SignedBy(c.signingKey, RequestMessage(id), a.signature) &&
                   c.phase.Enrolled?
                 then Pending(a.now + wait)
                 else if a.Deny? && a.id == id && a.user == c.user && c.phase.Pending? then Denied
                 else if a.Collect? && a.id == id && SignedBy(c.signingKey, CollectMessage(id), a.signature)
                         && c.phase.Pending? && a.now >= c.phase.unlockAt then Released
                 else c.phase)
  {
  }

  /** A stored contact is as it was enrolled, and is in the phase its requests give. */
  lemma {:induction false} ContactFollowsRequests(wait: int, run: seq<Action>, a: nat, n: nat)
    requires FreshIds(run) && Enrolls(run, a) && a < n <= |run|
    ensures run[a].id in Before(wait, run, n).contacts
    ensures var c := Before(wait, run, n).contacts[run[a].id];
            && c.user == run[a].user && c.signingKey == run[a].signingKey && c.sealed == run[a].sealed
            && PhaseFits(wait, run, a, n, c.phase)
    decreases n
  {
    StepOf(wait, run, n - 1);
    if a < n - 1 {
      ContactFollowsRequests(wait, run, a, n - 1);
      StepMovesContact(wait, Before(wait, run, n - 1), run[n - 1], run[a].id);
      var before, after := Before(wait, run, n - 1).contacts[run[a].id].phase,
        Before(wait, run, n).contacts[run[a].id].phase;
      PhaseMoves(wait, run, a, n - 1, before, after);
    }
  }

  /** The phase after step `i`, in the terms of the requests. */
  lemma PhaseMoves(wait: int, run: seq<Action>, a: nat, i: nat, before: Phase, after: Phase)
    requires Enrolls(run, a) && a < i < |run| && PhaseFits(wait, run, a, i, before)
    requires after == if Asks(run, a, i) && before.Enrolled? then Pending(run[i].now + wait)
                      else if Denies(run, a, i) && before.Pending? then Denied
                      else if Collects(run, a, i) && before.Pending? && run[i].now >= before.unlockAt then Released
                      else before
    ensures PhaseFits(wait, run, a, i + 1, after)
  {
    match before {
      case Enrolled =>
        if Asks(run, a, i) {
          assert WaitsSince(wait, run, a, i + 1, i);
        }
      case Pending(unlockAt) =>
        var r :| 0 <= r < i && WaitsSince(wait, run, a, i, r) && unlockAt == run[r].now + wait;
        if Denies(run, a, i) {
          assert WaitEnds(wait, run, a, i + 1, r, i, true);
        } else if Ripe(wait, run, a, r, i) {
          assert WaitEnds(wait, run, a, i + 1, r, i, false);
        } else {
          assert WaitsSince(wait, run, a, i + 1, r);
        }
      case Denied =>
        var r, e :| 0 <= r < i && 0 <= e < i && WaitEnds(wait, run, a, i, r, e, true);
        assert WaitEnds(wait, run, a, i + 1, r, e, true);
      case Released =>
        var r, e :| 0 <= r < i && 0 <= e < i && WaitEnds(wait, run, a, i, r, e, false);
        assert WaitEnds(wait, run, a, i + 1, r, e, false);
    }
  }

  // -------- what follows for every run --------

  /** The contact behind an id, if one was enrolled. */
  lemma {:induction false} StoredWasEnrolled(wait: int, run: seq<Action>, n: nat, id: string) returns (a: nat)
    requires n <= |run| && id in Before(wait, run, n).contacts
    ensures a < n && Enrolls(run, a) && run[a].id == id
    decreases n
  {
    StepOf(wait, run, n - 1);
    if run[n - 1].Add? && run[n - 1].id == id && HasMaterial(run[n - 1].signingKey, run[n - 1].sealed) {
      a := n - 1;
    } else {
      a := StoredWasEnrolled(wait, run, n - 1, id);
    }
  }

  /** The first request, and the first ripe attempt to collect, with no denial between them. */
  ghost predicate ReleasedBy(wait: int, run: seq<Action>, a: nat, r: nat, c: nat, j: nat)
    requires Enrolls(run, a)
  {
    Starts(run, a, r, j) && r < c <= j && Ripe(wait, run, a, r, c) && StillWaits(wait, run, a, r, c)
  }

  /**
   * The sealed key is handed out exactly when the contact signs for it and
   * had asked at some time t0, this or an earlier signed attempt came at
   * t0 + wait or later, and the owner had not denied before that attempt.
   */
  lemma KeyIsHandedOutExactly(wait: int, run: seq<Action>, a: nat, j: nat)
    requires FreshIds(run) && Enrolls(run, a) && a < j < |run| && run[j].Collect? && run[j].id == run[a].id
    ensures var outcome := Step(wait, Before(wait, run, j), run[j]).0;
            && (outcome.Handed? ==> outcome.sealed == run[a].sealed)
            && (outcome.Handed? <==> Collects(run, a, j) && exists r, c | 0 <= r < c <= j ::
               ReleasedBy(wait, run, a, r, c, j))
  {
    ContactFollowsRequests(wait, run, a, j);
    var phase := Before(wait, run, j).contacts[run[a].id].phase;
    if Collects(run, a, j) {
      if phase.Released? || (phase.Pending? && run[j].now >= phase.unlockAt) {
        HandedMeansReleased(wait, run, a, j, phase);
      } else if exists r, c | 0 <= r < c <= j :: ReleasedBy(wait, run, a, r, c, j) {
        ReleasedMeansHanded(wait, run, a, j, phase);
      }
    }
  }

  lemma HandedMeansReleased(wait: int, run: seq<Action>, a: nat, j: nat, phase: Phase)
    requires Enrolls(run, a) && Collects(run, a, j) && PhaseFits(wait, run, a, j, phase)
    requires phase.Released? || (phase.Pending? && run[j].now >= phase.unlockAt)
    ensures exists r, c | 0 <= r < c <= j :: ReleasedBy(wait, run, a, r, c, j)
  {
    if phase.Released? {
      var r, e :| 0 <= r < j && 0 <= e < j && WaitEnds(wait, run, a, j, r, e, false);
      assert ReleasedBy(wait, run, a, r, e, j);
    } else {
      var r :| 0 <= r < j && WaitsSince(wait, run, a, j, r) && phase.unlockAt == run[r].now + wait;
      assert ReleasedBy(wait, run, a, r, j, j);
    }
  }

  lemma ReleasedMeansHanded(wait: int, run: seq<Action>, a: nat, j: nat, phase: Phase)
    requires Enrolls(run, a) && Collects(run, a, j) && PhaseFits(wait, run, a, j, phase)
    requires exists r, c | 0 <= r < c <= j :: ReleasedBy(wait, run, a, r, c, j)
    ensures phase.Released? || (phase.Pending? && run[j].now >= phase.unlockAt)
  {
    var r, c :| 0 <= r < c <= j && ReleasedBy(wait, run, a, r, c, j);
    if c < j {
      assert WaitEnds(wait, run, a, j, r, c, false);
      PhaseIsUnique(wait, run, a, j, phase, Released);
    } else {
      assert WaitsSince(wait, run, a, j, r);
      PhaseIsUnique(wait, run, a, j, phase, Pending(run[r].now + wait));
    }
  }

  // -------- what each request is answered --------

  /** The contact first asked at `r`, not after step `n`, was waiting still before it, and waits until `until`. */
  ghost predicate WaitsUntil(wait: int, run: seq<Action>, a: nat, n: nat, r: nat, until: int)
    requires Enrolls(run, a)
  {
    Starts(run, a, r, n + 1) && StillWaits(wait, run, a, r, n) && until == run[r].now + wait
  }

  /** The phase before step `n`, where the contact does not ask at that step itself. */
  lemma PendingMeansWaiting(wait: int, run: seq<Action>, a: nat, n: nat, phase: Phase, until: int)
    requires Enrolls(run, a) && a < n < |run| && !Asks(run, a, n) && PhaseFits(wait, run, a, n, phase)
    ensures phase == Pending(until) <==> exists r :: WaitsUntil(wait, run, a, n, r, until)
  {
    if phase == Pending(until) {
      var r :| 0 <= r < n && WaitsSince(wait, run, a, n, r) && until == run[r].now + wait;
      assert WaitsUntil(wait, run, a, n, r, until);
    }
    if r :| WaitsUntil(wait, run, a, n, r, until) {
      assert WaitsSince(wait, run, a, n, r);
      PhaseIsUnique(wait, run, a, n, phase, Pending(until));
    }
  }

  /**
   * A request is told the unlock time t if and only if the contact signed it,
   * no denial and no release came before it, and t is the clock of the
   * contact's first signed request, which may be this one, plus the waiting
   * period; any other request is told nothing.
   */
  lemma RequestIsAnsweredExactly(wait: int, run: seq<Action>, a: nat, k: nat, until: int)
    requires FreshIds(run) && Enrolls(run, a) && a < k < |run| && run[k].Request? && run[k].id == run[a].id
    ensures var outcome := Step(wait, Before(wait, run, k), run[k]).0;
            && outcome.Asked?
            && (outcome == Asked(Some(until)) <==> Asks(run, a, k) && exists r :: WaitsUntil(wait, run, a, k, r, until))
  {
    ContactFollowsRequests(wait, run, a, k);
    if Asks(run, a, k) {
      AskedInPhase(wait, run, a, k, Before(wait, run, k).contacts[run[a].id].phase, until);
    }
  }

  /** What the asker is told, by the phase before the request. */
  function ToldIn(phase: Phase, now: int, wait: int): Option<int> {
    match phase
    case Enrolled => Some(now + wait)
    case Pending(unlockAt) => Some(unlockAt)
    case _ => None
  }

  lemma AskedInPhase(wait: int, run: seq<Action>, a: nat, k: nat, phase: Phase, until: int)
    requires Enrolls(run, a) && Asks(run, a, k) && PhaseFits(wait, run, a, k, phase)
    ensures ToldIn(phase, run[k].now, wait) == Some(until) <==> exists r :: WaitsUntil(wait, run, a, k, r, until)
  {
    if ToldIn(phase, run[k].now, wait) == Some(until) {
      if phase.Enrolled? {
        assert WaitsUntil(wait, run, a, k, k, until);
      } else {
        var r :| 0 <= r < k && WaitsSince(wait, run, a, k, r) && until == run[r].now + wait;
        assert WaitsUntil(wait, run, a, k, r, until);
      }
    }
    if r :| WaitsUntil(wait, run, a, k, r, until) {
      if r == k {
        assert NeverAsked(run, a, k);
        PhaseIsUnique(wait, run, a, k, phase, Enrolled);
      } else {
        assert WaitsSince(wait, run, a, k, r);
        PhaseIsUnique(wait, run, a, k, phase, Pending(until));
      }
    }
  }

  /**
   * An attempt to collect is told to wait until t if and only if the contact
   * signed it, waits still, and t, the clock of its first signed request plus
   * the waiting period, has not come.
   */
  lemma WaitIsAnsweredExactly(wait: int, run: seq<Action>, a: nat, j: nat, until: int)
    requires FreshIds(run) && Enrolls(run, a) && a < j < |run| && run[j].Collect? && run[j].id == run[a].id
    ensures Step(wait, Before(wait, run, j), run[j]).0 == Wait(until) <==>
            && Collects(run, a, j) && run[j].now < until
            && exists r :: WaitsUntil(wait, run, a, j, r, until)
  {
    ContactFollowsRequests(wait, run, a, j);
    PendingMeansWaiting(wait, run, a, j, Before(wait, run, j).contacts[run[a].id].phase, until);
  }

  /** A denial succeeds if and only if the owner makes it while the contact waits. */
  lemma DenialSucceedsExactly(wait: int, run: seq<Action>, a: nat, k: nat)
    requires FreshIds(run) && Enrolls(run, a) && a < k < |run| && run[k].Deny? && run[k].id == run[a].id
    ensures var outcome := Step(wait, Before(wait, run, k), run[k]).0;
            && outcome.DenialMade?
            && (outcome.ok <==> run[k].user == run[a].user && exists r, until :: WaitsUntil(wait, run, a, k, r, until))
  {
    ContactFollowsRequests(wait, run, a, k);
    var phase := Before(wait, run, k).contacts[run[a].id].phase;
    if phase.Pending? {
      PendingMeansWaiting(wait, run, a, k, phase, phase.unlockAt);
    }
    if r, until :| WaitsUntil(wait, run, a, k, r, until) {
      PendingMeansWaiting(wait, run, a, k, phase, until);
    }
  }

  /** A contact is added if and only if none of its three keys is empty; it can then ask, and has not. */
  lemma AddingSucceedsExactly(wait: int, s: State, a: Action)
    requires a.Add?
    ensures var (outcome, after) := Step(wait, s, a);
            && outcome.Added?
            && (outcome.ok <==>
                a.signingKey != Malformed("") && a.sealed.ephemeralKey != "" && a.sealed.wrappedKey != "")
            && (outcome.ok ==> after.contacts == s.contacts[a.id := Contact(a.user, a.signingKey, a.sealed, Enrolled)])
            && (!outcome.ok ==> after == s) && after.notices == s.notices
  {
  }

  /** Under an id that was never enrolled nothing is asked or denied either. */
  lemma UnknownContactIsRefused(wait: int, run: seq<Action>, k: nat)
    requires k < |run| && (run[k].Request? || run[k].Deny?)
    requires forall a | 0 <= a < k :: Enrolls(run, a) ==> run[a].id != run[k].id
    ensures Step(wait, Before(wait, run, k), run[k]).0 == if run[k].Request? then Asked(None) else DenialMade(false)
  {
    if run[k].id in Before(wait, run, k).contacts {
      var a := StoredWasEnrolled(wait, run, k, run[k].id);
    }
  }

  /** What a contact signs to ask and to collect: these texts, and never the same one. */
  lemma MessagesAreApart(id: string, other: string)
    ensures RequestMessage(id) == "emergency-request:" + id && CollectMessage(id) == "emergency-collect:" + id
    ensures RequestMessage(id) != CollectMessage(other)
  {
    assert RequestMessage(id)[10] == 'r' && CollectMessage(other)[10] == 'c';
  }

  /** Nobody collects under an id that was never enrolled. */
  lemma UnknownContactGetsNothing(wait: int, run: seq<Action>, j: nat)
    requires j < |run| && run[j].Collect? && forall a | 0 <= a < j :: Enrolls(run, a) ==> run[a].id != run[j].id
    ensures Step(wait, Before(wait, run, j), run[j]).0 == Nothing
  {
    if run[j].id in Before(wait, run, j).contacts {
      var a := StoredWasEnrolled(wait, run, j, run[j].id);
    }
  }

  /** While a contact waits, no request moves the time it waits for. */
  lemma UnlockTimeNeverMoves(wait: int, run: seq<Action>, a: nat, i: nat, j: nat)
    requires FreshIds(run) && Enrolls(run, a) && a < i <= j <= |run|
    ensures run[a].id in Before(wait, run, i).contacts && run[a].id in Before(wait, run, j).contacts
    ensures var early, late := Before(wait, run, i).contacts[run[a].id].phase,
            Before(wait, run, j).contacts[run[a].id].phase;
            && (early.Pending? && late.Pending? ==> early == late)
            && (late.Enrolled? ==> early.Enrolled?) && (late.Pending? ==> early.Pending? || early.Enrolled?)
            && (early.Denied? || early.Released? ==> late == early)
    decreases j
  {
    ContactFollowsRequests(wait, run, a, i);
    if i < j {
      UnlockTimeNeverMoves(wait, run, a, i, j - 1);
      StepOf(wait, run, j - 1);
      StepMovesContact(wait, Before(wait, run, j - 1), run[j - 1], run[a].id);
    }
  }

  function Count(notices: seq<Notice>, n: Notice): nat {
    multiset(notices)[n]
  }

  lemma CountAppend(notices: seq<Notice>, last: Notice, n: Notice)
    ensures Count(notices + [last], n) == Count(notices, n) + if last == n then 1 else 0
  {
  }

  /** The notices about a contact tell its phase: one request, and then at most one denial or release. */
  ghost predicate NoticesFit(s: State, id: string) {
    var notices := s.notices;
    if id !in s.contacts then
      Count(notices, Requested(id)) == 0 && Count(notices, Refusal(id)) == 0 && Count(notices, Release(id)) == 0
    else
      var phase := s.contacts[id].phase;
      && Count(notices, Requested(id)) == (if phase.Enrolled? then 0 else 1)
      && Count(notices, Refusal(id)) == (if phase.Denied? then 1 else 0)
      && Count(notices, Release(id)) == (if phase.Released? then 1 else 0)
  }

  /** A step either sends nothing and moves no contact, or moves one and sends the notice of that. */
  lemma StepSends(wait: int, s: State, a: Action)
    ensures var after := Step(wait, s, a).1;
            || (after.notices == s.notices
                && (after.contacts == s.contacts || (a.Add? && after.contacts.Keys == s.contacts.Keys + {a.id}
                    && after.contacts[a.id].phase.Enrolled? && forall id | id in s.contacts && id != a.id ::
                       after.contacts[id] == s.contacts[id])))
            || exists phase, notice :: Sends(s, a, phase, notice) && after == Moved(s, a.id, phase, notice)
  {
    if a.Request? && Step(wait, s, a).1 != s {
      assert Sends(s, a, Pending(a.now + wait), Requested(a.id));
    } else if a.Deny? && Step(wait, s, a).1 != s {
      assert Sends(s, a, Denied, Refusal(a.id));
    } else if a.Collect? && Step(wait, s, a).1 != s {
      assert Sends(s, a, Released, Release(a.id));
    }
  }

  predicate Sends(s: State, a: Action, phase: Phase, notice: Notice) {
    && a.id in s.contacts
    && match phase
       case Enrolled => false
       case Pending(_) => s.contacts[a.id].phase.Enrolled? && notice == Requested(a.id)
       case Denied => s.contacts[a.id].phase.Pending? && notice == Refusal(a.id)
       case Released => s.contacts[a.id].phase.Pending? && notice == Release(a.id)
  }

  lemma StepKeepsNotices(wait: int, s: State, a: Action, id: string)
    requires NoticesFit(s, id) && (a.Add? ==> a.id !in s.contacts)
    ensures NoticesFit(Step(wait, s, a).1, id)
  {
    StepSends(wait, s, a);
    var after := Step(wait, s, a).1;
    if after.notices != s.notices {
      var phase, notice :| Sends(s, a, phase, notice) && after == Moved(s, a.id, phase, notice);
      NoticeKeepsFit(s, a, phase, notice, id);
    }
  }

  lemma NoticeKeepsFit(s: State, a: Action, phase: Phase, notice: Notice, id: string)
    requires NoticesFit(s, id) && Sends(s, a, phase, notice)
    ensures NoticesFit(Moved(s, a.id, phase, notice), id)
  {
    CountAppend(s.notices, notice, Requested(id));
    CountAppend(s.notices, notice, Refusal(id));
    CountAppend(s.notices, notice, Release(id));
  }

  /** In every run, each contact gets at most one request notice, and at most one of denial and release. */
  lemma {:induction false} EachContactIsNoticedOnce(wait: int, run: seq<Action>, n: nat, id: string)
    requires FreshIds(run) && n <= |run|
    ensures NoticesFit(Before(wait, run, n), id)
    decreases n
  {
    if n > 0 {
      EachContactIsNoticedOnce(wait, run, n - 1, id);
      StepOf(wait, run, n - 1);
      if run[n - 1].Add? && run[n - 1].id in Before(wait, run, n - 1).contacts {
        var a := StoredWasEnrolled(wait, run, n - 1, run[n - 1].id);
        assert false;
      }
      StepKeepsNotices(wait, Before(wait, run, n - 1), run[n - 1], id);
    }
  }

  // -------- the service --------

  class RecoveryService {
    var contacts: map<string, Contact>
    /** The calls of the notifier, in order. */
    var notices: seq<Notice>
    const waitMs: int

    constructor (waitMs: int)
      ensures this.waitMs == waitMs && Now() == INIT
    {
      this.waitMs := waitMs;
      contacts := map[];
      notices := [];
    }

    function Now(): State
      reads this
    {
      State(contacts, notices)
    }

    method AddContact(random: string, user: string, signingKey: PublicKey, sealed: Sealed) returns (r: Outcome)
      modifies this
      ensures (r, Now()) == Step(waitMs, old(Now()), Add(random, user, signingKey, sealed))
    {
      if signingKey == Malformed("") || sealed.wrappedKey == "" || sealed.ephemeralKey == "" {
        return Added(false);
      }
      contacts := contacts[random := Contact(user, signingKey, sealed, Enrolled)];
      r := Added(true);
    }

    method RequestAccess(id: string, signature: Signature, now: int) returns (r: Outcome)
      modifies this
      ensures (r, Now()) == Step(waitMs, old(Now()), Request(id, signature, now))
    {
      if id !in contacts {
        return Asked(None);
      }
      var c := contacts[id];
      if !SignedBy(c.signingKey, RequestMessage(id), signature) || c.phase.Denied? || c.phase.Released? {
        return Asked(None);
      }
      if c.phase.Pending? {
        return Asked(Some(c.phase.unlockAt));
      }
      contacts := contacts[id := c.(phase := Pending(now + waitMs))];
      notices := notices + [Requested(id)];
      r := Asked(Some(now + waitMs));
    }

    method DenyRequest(id: string, user: string) returns (r: Outcome)
      modifies this
      ensures (r, Now()) == Step(waitMs, old(Now()), Deny(id, user))
    {
      if id !in contacts || contacts[id].user != user || !contacts[id].phase.Pending? {
        return DenialMade(false);
      }
      contacts := contacts[id := contacts[id].(phase := Denied)];
      notices := notices + [Refusal(id)];
      r := DenialMade(true);
    }

    method CollectKey(id: string, signature: Signature, now: int) returns (r: Outcome)
      modifies this
      ensures (r, Now()) == Step(waitMs, old(Now()), Collect(id, signature, now))
    {
      if id !in contacts {
        return Nothing;
      }
      var c := contacts[id];
      if !SignedBy(c.signingKey, CollectMessage(id), signature) || c.phase.Denied? || c.phase.Enrolled? {
        return Nothing;
      }
      if c.phase.Pending? {
        if now < c.phase.unlockAt {
          return Wait(c.phase.unlockAt);
        }
        contacts := contacts[id := c.(phase := Released)];
        notices := notices + [Release(id)];
      }
      r := Handed(c.sealed);
    }
  }
}
