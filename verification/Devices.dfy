/** Device enrolment and the trust rule: a device becomes approved only through one that already is. */
module Devices {
  import opened Common
  import opened Crypto
  import CompositeKey

  datatype Device = Device(id: string, user: string, signingKey: PublicKey, approved: bool)

  /** Where device records are kept: in a map under joined keys, or in a list that is searched by user and id. */
  datatype Repo = InMemory | File

  /** What a record is found under. */
  datatype Key = Text(text: string) | Pair(user: string, id: string)

  function KeyOf(repo: Repo, user: string, id: string): Key {
    match repo
    case InMemory => Text(CompositeKey.Join(user, id))
    case File => Pair(user, id)
  }

  type Store = map<Key, Device>

  datatype Reason = ApproverNotFound | ApproverNotTrusted | TargetNotFound | BadSignature

  /** `Threw` is a stored key that does not parse. */
  datatype Outcome = Done | Refused(reason: Reason) | Threw

  function Get(repo: Repo, store: Store, user: string, id: string): Option<Device> {
    var key := KeyOf(repo, user, id);
    if key in store then Some(store[key]) else None
  }

  predicate IsApproved(repo: Repo, store: Store, user: string, id: string) {
    Get(repo, store, user, id).Some? && Get(repo, store, user, id).value.approved
  }

  predicate HasDevices(store: Store, user: string) {
    exists key | key in store :: store[key].user == user
  }

  function WithApproval(store: Store, key: Key, approved: bool): Store {
    if key in store then store[key := store[key].(approved := approved)] else store
  }

  function ApprovalMessage(target: string): string {
    "approve-device:" + target
  }

  // -------- steps and runs --------

  /** `id` is the random id that the server picks. */
  datatype Action =
    | Enroll(user: string, id: string, signingKey: PublicKey)
    | Approve(user: string, approver: string, target: string, signature: Signature)

  function Step(repo: Repo, store: Store, a: Action): (Outcome, Store) {
    match a
    case Enroll(user, id, signingKey) =>
      (Done, store[KeyOf(repo, user, id) := Device(id, user, signingKey, !HasDevices(store, user))])
    case Approve(user, approver, target, signature) =>
      var from, to := Get(repo, store, user, approver), Get(repo, store, user, target);
      if from.None? then (Refused(ApproverNotFound), store)
      else if !from.value.approved then (Refused(ApproverNotTrusted), store)
      else if to.None? then (Refused(TargetNotFound), store)
      else
        match VerifyMessage(from.value.signingKey, ApprovalMessage(target), signature)
        case None => (Threw, store)
        case Some(false) => (Refused(BadSignature), store)
        case Some(true) => (Done, store[KeyOf(repo, user, target) := to.value.(approved := true)])
  }

  function Reach(repo: Repo, run: seq<Action>): Store
    decreases |run|
  {
    if run == [] then map[] else Step(repo, Reach(repo, run[..|run| - 1]), run[|run| - 1]).1
  }

  function Before(repo: Repo, run: seq<Action>, i: nat): Store
    requires i <= |run|
  {
    Reach(repo, run[..i])
  }

  lemma StepOf(repo: Repo, run: seq<Action>, i: nat)
    requires i < |run|
    ensures Before(repo, run, i + 1) == Step(repo, Before(repo, run, i), run[i]).1
  {
    assert run[..i + 1][..i] == run[..i];
  }

  /**
   * The ids that the server draws are fresh UUIDs, and the route takes targets
   * of letters, digits, `_` and `-` only. Nothing is said about user ids or approvers.
   */
  ghost predicate Proper(run: seq<Action>) {
    && (forall i | 0 <= i < |run| :: CompositeKey.Plain(if run[i].Enroll? then run[i].id else run[i].target))
    && (forall i, j | 0 <= i < j < |run| && run[i].Enroll? && run[j].Enroll? :: run[i].id != run[j].id)
  }

  /** Two pairs whose ids hold no separator are found under one key only if they are one pair. */
  lemma PlainKeysAreInjective(repo: Repo, user: string, id: string, user': string, id': string)
    requires repo.File? || (CompositeKey.Plain(id) && CompositeKey.Plain(id'))
    requires KeyOf(repo, user, id) == KeyOf(repo, user', id')
    ensures user == user' && id == id'
  {
    if repo.InMemory? {
      CompositeKey.JoinIsInjectiveBehind(user, id, user', id');
    }
  }

  /** Step `e` enrolled the device. */
  predicate EnrolledAt(run: seq<Action>, e: nat, user: string, id: string) {
    e < |run| && run[e].Enroll? && run[e].user == user && run[e].id == id
  }

  /** Step `e` enrolled the device that a lookup of this user and id finds. */
  predicate Names(repo: Repo, run: seq<Action>, e: nat, user: string, id: string) {
    e < |run| && run[e].Enroll? && KeyOf(repo, run[e].user, run[e].id) == KeyOf(repo, user, id)
  }

  /** A lookup names one enrolment at most. */
  lemma NamesOne(repo: Repo, run: seq<Action>, e: nat, f: nat, user: string, id: string)
    requires Proper(run) && Names(repo, run, e, user, id) && Names(repo, run, f, user, id)
    ensures e == f
  {
    PlainKeysAreInjective(repo, run[e].user, run[e].id, run[f].user, run[f].id);
  }

  lemma {:induction false} EnrolledIsStored(repo: Repo, run: seq<Action>, e: nat, n: nat)
    requires Proper(run) && e < n <= |run| && run[e].Enroll?
    ensures var d := Get(repo, Before(repo, run, n), run[e].user, run[e].id);
            d.Some? && d.value.id == run[e].id && d.value.user == run[e].user && d.value.signingKey == run[e].signingKey
    decreases n
  {
    StepOf(repo, run, n - 1);
    if e < n - 1 {
      EnrolledIsStored(repo, run, e, n - 1);
      if run[n - 1].Enroll? && Names(repo, run, n - 1, run[e].user, run[e].id) {
        NamesOne(repo, run, e, n - 1, run[e].user, run[e].id);
      }
    }
  }

  /** Every record in the store comes from an enrolment, and is filed under its own name. */
  lemma {:induction false} StoredWasEnrolled(repo: Repo, run: seq<Action>, n: nat, key: Key) returns (e: nat)
    requires n <= |run| && key in Before(repo, run, n)
    ensures e < n && run[e].Enroll? && key == KeyOf(repo, run[e].user, run[e].id)
    ensures var d := Before(repo, run, n)[key]; EnrolledAt(run, e, d.user, d.id) && d.signingKey == run[e].signingKey
    decreases n
  {
    StepOf(repo, run, n - 1);
    if run[n - 1].Enroll? && key == KeyOf(repo, run[n - 1].user, run[n - 1].id) {
      e := n - 1;
    } else {
      e := StoredWasEnrolled(repo, run, n - 1, key);
    }
  }

  lemma FoundWasEnrolled(repo: Repo, run: seq<Action>, n: nat, user: string, id: string) returns (e: nat)
    requires n <= |run| && Get(repo, Before(repo, run, n), user, id).Some?
    ensures e < n && Names(repo, run, e, user, id)
    ensures var d := Get(repo, Before(repo, run, n), user, id).value;
            EnrolledAt(run, e, d.user, d.id) && d.signingKey == run[e].signingKey
  {
    e := StoredWasEnrolled(repo, run, n, KeyOf(repo, user, id));
  }

  lemma NamedIsStored(repo: Repo, run: seq<Action>, e: nat, n: nat, user: string, id: string)
    requires Proper(run) && e < n <= |run| && Names(repo, run, e, user, id)
    ensures var d := Get(repo, Before(repo, run, n), user, id);
            d.Some? && d.value.user == run[e].user && d.value.signingKey == run[e].signingKey
  {
    EnrolledIsStored(repo, run, e, n);
  }

  /** Only enrolling it again can take approval from a device. */
  lemma StepKeepsApproval(repo: Repo, store: Store, a: Action, user: string, id: string)
    requires IsApproved(repo, store, user, id)
    requires a.Enroll? ==> KeyOf(repo, a.user, a.id) != KeyOf(repo, user, id)
    ensures IsApproved(repo, Step(repo, store, a).1, user, id)
  {
  }

  /** An enrolment that approves a device is the first of its user. */
  lemma EnrolmentApproves(repo: Repo, store: Store, a: Action, user: string, id: string)
    requires a.Enroll? && !IsApproved(repo, store, user, id) && IsApproved(repo, Step(repo, store, a).1, user, id)
    ensures KeyOf(repo, a.user, a.id) == KeyOf(repo, user, id) && !HasDevices(store, a.user)
  {
  }

  /** Approval is never withdrawn. */
  lemma {:induction false} ApprovalStays(repo: Repo, run: seq<Action>, i: nat, j: nat, user: string, id: string)
    requires Proper(run) && i <= j <= |run| && IsApproved(repo, Before(repo, run, i), user, id)
    ensures IsApproved(repo, Before(repo, run, j), user, id)
    decreases j
  {
    if i < j {
      ApprovalStays(repo, run, i, j - 1, user, id);
      StepOf(repo, run, j - 1);
      if run[j - 1].Enroll? && Names(repo, run, j - 1, user, id) {
        var e := FoundWasEnrolled(repo, run, j - 1, user, id);
        NamesOne(repo, run, e, j - 1, user, id);
        assert false;
      }
      StepKeepsApproval(repo, Before(repo, run, j - 1), run[j - 1], user, id);
    }
  }

  /**
   * Whose device a lookup finds: a record that is found is the one of that
   * user and id, unless records are kept under joined keys and the id holds a
   * separator; it is then always another user's.
   */
  lemma LookupFindsItsOwnExactly(repo: Repo, run: seq<Action>, e: nat, user: string, id: string)
    requires Proper(run) && Names(repo, run, e, user, id)
    ensures EnrolledAt(run, e, user, id) <==> repo.File? || CompositeKey.Plain(id)
    ensures run[e].user == user <==> repo.File? || CompositeKey.Plain(id)
  {
    if repo.File? || CompositeKey.Plain(id) {
      PlainKeysAreInjective(repo, user, id, run[e].user, run[e].id);
    } else if run[e].user == user {
      CompositeKey.JoinKeepsIds(user, run[e].id, id);
    }
  }

  // -------- the trust chain --------

  /** Step `e` is the user's first enrolment in the run. */
  predicate FirstDevice(run: seq<Action>, e: nat, user: string, id: string) {
    EnrolledAt(run, e, user, id) && forall k | 0 <= k < e :: run[k].Enroll? ==> run[k].user != user
  }

  /** A signature by the key that the approver enrolled with, over the approval of exactly this target. */
  predicate Signed(run: seq<Action>, e: nat, target: string, signature: Signature) {
    e < |run| && run[e].Enroll? && run[e].signingKey.Key?
    && signature == Signature(run[e].signingKey.holder, "approve-device:" + target)
  }

  /** One approval: its step, and the step that enrolled the approver. */
  datatype Link = Link(step: nat, enrolled: nat)

  /** Step `e` is the first enrolment of whichever user it is for. */
  predicate FirstOfItsUser(run: seq<Action>, e: nat) {
    e < |run| && run[e].Enroll? && forall k | 0 <= k < e :: run[k].Enroll? ==> run[k].user != run[e].user
  }

  /**
   * What approval of a device rests on, said about the requests alone: a chain
   * of approval requests before step `n`, each signed by the key of the device
   * that its approver's name finds, from a first device to this one.
   */
  ghost predicate NamedChain(repo: Repo, run: seq<Action>, n: nat, user: string, id: string, links: seq<Link>)
    decreases |links|
  {
    if links == [] then NamedStart(repo, run, n, user, id)
    else
      var last := links[|links| - 1];
      && NamedLink(repo, run, n, user, id, last)
      && NamedChain(repo, run, last.step, run[last.step].user, run[last.step].approver, links[..|links| - 1])
  }

  ghost predicate NamedStart(repo: Repo, run: seq<Action>, n: nat, user: string, id: string) {
    exists e | 0 <= e < n :: Names(repo, run, e, user, id) && FirstOfItsUser(run, e)
  }

  ghost predicate NamedLink(repo: Repo, run: seq<Action>, n: nat, user: string, id: string, link: Link) {
    && link.step < n <= |run| && run[link.step].Approve?
    && KeyOf(repo, run[link.step].user, run[link.step].target) == KeyOf(repo, user, id)
    && (exists e | 0 <= e < link.step :: Names(repo, run, e, user, id))
    && link.enrolled < link.step && Names(repo, run, link.enrolled, run[link.step].user, run[link.step].approver)
    && Signed(run, link.enrolled, run[link.step].target, run[link.step].signature)
  }

  lemma ChainLater(repo: Repo, run: seq<Action>, n: nat, m: nat, user: string, id: string, links: seq<Link>)
    requires n <= m <= |run| && NamedChain(repo, run, n, user, id, links)
    ensures NamedChain(repo, run, m, user, id, links)
  {
    if links == [] {
      var e :| 0 <= e < n && Names(repo, run, e, user, id) && FirstOfItsUser(run, e);
      assert NamedStart(repo, run, m, user, id);
    }
  }

  /** No step before enrolled anything for the user exactly when the store holds no device of theirs. */
  lemma DevicesAreEnrolments(repo: Repo, run: seq<Action>, n: nat, user: string)
    requires Proper(run) && n <= |run|
    ensures HasDevices(Before(repo, run, n), user) <==> exists e | 0 <= e < n :: run[e].Enroll? && run[e].user == user
  {
    if HasDevices(Before(repo, run, n), user) {
      var key :| key in Before(repo, run, n) && Before(repo, run, n)[key].user == user;
      var e := StoredWasEnrolled(repo, run, n, key);
    }
    if e :| 0 <= e < n && run[e].Enroll? && run[e].user == user {
      EnrolledIsStored(repo, run, e, n);
      assert KeyOf(repo, user, run[e].id) in Before(repo, run, n);
    }
  }

  /** Each approved device has a chain of approvals back to a first device. */
  lemma {:induction false} ApprovedHasChain(repo: Repo, run: seq<Action>, n: nat, user: string, id: string)
    returns (links: seq<Link>)
    requires Proper(run) && n <= |run| && IsApproved(repo, Before(repo, run, n), user, id)
    ensures NamedChain(repo, run, n, user, id, links)
    decreases n, 0
  {
    var a, store := run[n - 1], Before(repo, run, n - 1);
    StepOf(repo, run, n - 1);
    if IsApproved(repo, store, user, id) {
      links := ApprovedHasChain(repo, run, n - 1, user, id);
      ChainLater(repo, run, n - 1, n, user, id, links);
    } else if a.Enroll? {
      EnrolmentApproves(repo, store, a, user, id);
      DevicesAreEnrolments(repo, run, n - 1, a.user);
      assert Names(repo, run, n - 1, user, id) && FirstOfItsUser(run, n - 1);
      links := [];
    } else {
      links := ApprovalExtends(repo, run, n - 1, user, id);
    }
  }

  /** The approval at step `i` puts a link to the chain of its approver. */
  lemma {:induction false} ApprovalExtends(repo: Repo, run: seq<Action>, i: nat, user: string, id: string)
    returns (links: seq<Link>)
    requires Proper(run) && i < |run| && run[i].Approve? && !IsApproved(repo, Before(repo, run, i), user, id)
    requires IsApproved(repo, Step(repo, Before(repo, run, i), run[i]).1, user, id)
    ensures NamedChain(repo, run, i + 1, user, id, links)
    decreases i, 1
  {
    var e := FoundWasEnrolled(repo, run, i, run[i].user, run[i].approver);
    var t := FoundWasEnrolled(repo, run, i, run[i].user, run[i].target);
    var before := ApprovedHasChain(repo, run, i, run[i].user, run[i].approver);
    links := before + [Link(i, e)];
    assert links[..|links| - 1] == before;
    assert Names(repo, run, t, user, id);
    assert NamedLink(repo, run, i + 1, user, id, Link(i, e));
  }

  /** An approval by an approved device of an enrolled one, signed with the approver's key, goes through. */
  lemma SignedApprovalPasses(repo: Repo, run: seq<Action>, i: nat, e: nat, t: nat)
    requires Proper(run) && i < |run| && run[i].Approve? && e < i && t < i
    requires Names(repo, run, e, run[i].user, run[i].approver) && Names(repo, run, t, run[i].user, run[i].target)
    requires IsApproved(repo, Before(repo, run, i), run[i].user, run[i].approver)
    requires Signed(run, e, run[i].target, run[i].signature)
    ensures Step(repo, Before(repo, run, i), run[i]).0 == Done
    ensures IsApproved(repo, Before(repo, run, i + 1), run[i].user, run[i].target)
  {
    NamedIsStored(repo, run, t, i, run[i].user, run[i].target);
    NamedIsStored(repo, run, e, i, run[i].user, run[i].approver);
    StepOf(repo, run, i);
  }

  /** And every such chain was honoured: its device is approved. */
  lemma {:induction false} ChainIsApproved(repo: Repo, run: seq<Action>, n: nat, user: string, id: string,
                                           links: seq<Link>)
    requires Proper(run) && n <= |run| && NamedChain(repo, run, n, user, id, links)
    ensures IsApproved(repo, Before(repo, run, n), user, id)
    decreases |links|
  {
    if links == [] {
      StartIsApproved(repo, run, n, user, id);
    } else {
      var last := links[|links| - 1];
      ChainIsApproved(repo, run, last.step, run[last.step].user, run[last.step].approver, links[..|links| - 1]);
      LinkIsApproved(repo, run, n, user, id, last);
    }
  }

  lemma StartIsApproved(repo: Repo, run: seq<Action>, n: nat, user: string, id: string)
    requires Proper(run) && n <= |run| && NamedStart(repo, run, n, user, id)
    ensures IsApproved(repo, Before(repo, run, n), user, id)
  {
    var e :| 0 <= e < n && Names(repo, run, e, user, id) && FirstOfItsUser(run, e);
    DevicesAreEnrolments(repo, run, e, run[e].user);
    StepOf(repo, run, e);
    ApprovalStays(repo, run, e + 1, n, user, id);
  }

  lemma LinkIsApproved(repo: Repo, run: seq<Action>, n: nat, user: string, id: string, link: Link)
    requires Proper(run) && n <= |run| && NamedLink(repo, run, n, user, id, link)
    requires IsApproved(repo, Before(repo, run, link.step), run[link.step].user, run[link.step].approver)
    ensures IsApproved(repo, Before(repo, run, n), user, id)
  {
    var e :| 0 <= e < link.step && Names(repo, run, e, user, id);
    SignedApprovalPasses(repo, run, link.step, link.enrolled, e);
    ApprovalStays(repo, run, link.step + 1, n, user, id);
  }

  /**
   * In every reachable store of either kind, whatever user ids and approvers
   * the requests carry, a device is found approved if and only if a chain of
   * signed approvals leads to it from a first device.
   */
  lemma ApprovedExactlyByNamedChain(repo: Repo, run: seq<Action>, user: string, id: string)
    requires Proper(run)
    ensures IsApproved(repo, Reach(repo, run), user, id) <==>
            exists links :: NamedChain(repo, run, |run|, user, id, links)
  {
    assert run[..|run|] == run;
    if IsApproved(repo, Reach(repo, run), user, id) {
      var links := ApprovedHasChain(repo, run, |run|, user, id);
      assert exists links :: NamedChain(repo, run, |run|, user, id, links);
    }
    if exists links :: NamedChain(repo, run, |run|, user, id, links) {
      var links :| NamedChain(repo, run, |run|, user, id, links);
      ChainIsApproved(repo, run, |run|, user, id, links);
    }
  }

  // -------- one user's own chain --------

  /** The same with every device of the chain the user's own, starting at that user's first device. */
  ghost predicate Chain(run: seq<Action>, n: nat, user: string, id: string, links: seq<Link>)
    decreases |links|
  {
    if links == [] then OwnStart(run, n, user, id)
    else
      var last := links[|links| - 1];
      && OwnLink(run, n, user, id, last)
      && Chain(run, last.step, user, run[last.step].approver, links[..|links| - 1])
  }

  ghost predicate OwnStart(run: seq<Action>, n: nat, user: string, id: string) {
    exists e | 0 <= e < n :: FirstDevice(run, e, user, id)
  }

  ghost predicate OwnLink(run: seq<Action>, n: nat, user: string, id: string, link: Link) {
    && link.step < n <= |run|
    && run[link.step].Approve? && run[link.step].user == user && run[link.step].target == id
    && (exists e | 0 <= e < link.step :: EnrolledAt(run, e, user, id))
    && link.enrolled < link.step && EnrolledAt(run, link.enrolled, user, run[link.step].approver)
    && Signed(run, link.enrolled, id, run[link.step].signature)
  }

  /** The approver of this link is named without a separator, where that matters. */
  predicate PlainLink(repo: Repo, run: seq<Action>, link: Link) {
    repo.InMemory? && link.step < |run| && run[link.step].Approve? ==> CompositeKey.Plain(run[link.step].approver)
  }

  predicate PlainLinks(repo: Repo, run: seq<Action>, links: seq<Link>)
    decreases |links|
  {
    links != [] ==> PlainLink(repo, run, links[|links| - 1]) && PlainLinks(repo, run, links[..|links| - 1])
  }

  lemma OwnStartIsNamed(repo: Repo, run: seq<Action>, n: nat, user: string, id: string)
    requires Proper(run) && OwnStart(run, n, user, id)
    ensures NamedStart(repo, run, n, user, id) && CompositeKey.Plain(id)
  {
    var e :| 0 <= e < n && FirstDevice(run, e, user, id);
    assert Names(repo, run, e, user, id) && FirstOfItsUser(run, e);
  }

  lemma OwnLinkIsNamed(repo: Repo, run: seq<Action>, n: nat, user: string, id: string, link: Link)
    requires Proper(run) && OwnLink(run, n, user, id, link)
    ensures NamedLink(repo, run, n, user, id, link) && PlainLink(repo, run, link) && CompositeKey.Plain(id)
  {
    var e :| 0 <= e < link.step && EnrolledAt(run, e, user, id);
    assert Names(repo, run, e, user, id);
  }

  /** An own chain is one by names, and names its approvers without a separator. */
  lemma {:induction false} OwnChainIsNamed(repo: Repo, run: seq<Action>, n: nat, user: string, id: string,
                                           links: seq<Link>)
    requires Proper(run) && Chain(run, n, user, id, links)
    ensures NamedChain(repo, run, n, user, id, links) && PlainLinks(repo, run, links) && CompositeKey.Plain(id)
    decreases |links|
  {
    if links == [] {
      OwnStartIsNamed(repo, run, n, user, id);
    } else {
      var last := links[|links| - 1];
      OwnLinkIsNamed(repo, run, n, user, id, last);
      OwnChainIsNamed(repo, run, last.step, user, run[last.step].approver, links[..|links| - 1]);
    }
  }

  lemma PlainStartIsOwn(repo: Repo, run: seq<Action>, n: nat, user: string, id: string)
    requires Proper(run) && NamedStart(repo, run, n, user, id) && (repo.File? || CompositeKey.Plain(id))
    ensures OwnStart(run, n, user, id)
  {
    var e :| 0 <= e < n && Names(repo, run, e, user, id) && FirstOfItsUser(run, e);
    LookupFindsItsOwnExactly(repo, run, e, user, id);
    assert FirstDevice(run, e, user, id);
  }

  lemma PlainLinkIsOwn(repo: Repo, run: seq<Action>, n: nat, user: string, id: string, link: Link)
    requires Proper(run) && NamedLink(repo, run, n, user, id, link) && PlainLink(repo, run, link)
    requires repo.File? || CompositeKey.Plain(id)
    ensures OwnLink(run, n, user, id, link)
  {
    var a := run[link.step];
    var e :| 0 <= e < link.step && Names(repo, run, e, user, id);
    LookupFindsItsOwnExactly(repo, run, e, user, id);
    PlainKeysAreInjective(repo, a.user, a.target, user, id);
    LookupFindsItsOwnExactly(repo, run, link.enrolled, a.user, a.approver);
  }

  /** And a chain by names is an own one when its names are without a separator, or pairs. */
  lemma {:induction false} PlainChainIsOwn(repo: Repo, run: seq<Action>, n: nat, user: string, id: string,
                                           links: seq<Link>)
    requires Proper(run) && NamedChain(repo, run, n, user, id, links)
    requires PlainLinks(repo, run, links) && (repo.File? || CompositeKey.Plain(id))
    ensures Chain(run, n, user, id, links)
    decreases |links|
  {
    if links == [] {
      PlainStartIsOwn(repo, run, n, user, id);
    } else {
      var last := links[|links| - 1];
      PlainLinkIsOwn(repo, run, n, user, id, last);
      PlainChainIsOwn(repo, run, last.step, user, run[last.step].approver, links[..|links| - 1]);
    }
  }

  /**
   * A chain by names is the user's own, from the user's first device, if and
   * only if records are found by pairs, or no name in it holds a separator.
   */
  lemma ChainIsOwnExactly(repo: Repo, run: seq<Action>, n: nat, user: string, id: string, links: seq<Link>)
    requires Proper(run) && NamedChain(repo, run, n, user, id, links)
    ensures Chain(run, n, user, id, links) <==>
            repo.File? || (CompositeKey.Plain(id) && PlainLinks(repo, run, links))
  {
    if Chain(run, n, user, id, links) {
      OwnChainIsNamed(repo, run, n, user, id, links);
    }
    if repo.File? || (CompositeKey.Plain(id) && PlainLinks(repo, run, links)) {
      if repo.File? {
        PairsArePlain(run, links);
      }
      PlainChainIsOwn(repo, run, n, user, id, links);
    }
  }

  lemma {:induction false} PairsArePlain(run: seq<Action>, links: seq<Link>)
    ensures PlainLinks(File, run, links)
    decreases |links|
  {
    if links != [] {
      PairsArePlain(run, links[..|links| - 1]);
    }
  }

  /** The approvers of the run are named without a separator, where that matters. */
  predicate PlainApprovers(repo: Repo, run: seq<Action>) {
    repo.File? || forall i | 0 <= i < |run| && run[i].Approve? :: CompositeKey.Plain(run[i].approver)
  }

  lemma {:induction false} ApproversGivePlainLinks(repo: Repo, run: seq<Action>, links: seq<Link>)
    requires PlainApprovers(repo, run)
    ensures PlainLinks(repo, run, links)
    decreases |links|
  {
    if links != [] {
      ApproversGivePlainLinks(repo, run, links[..|links| - 1]);
    }
  }

  /** A chain of the user's own devices leads to this one. */
  ghost predicate Trusted(run: seq<Action>, n: nat, user: string, id: string) {
    exists links :: Chain(run, n, user, id, links)
  }

  /**
   * Trust is exactly the chain of signatures: in every reachable store of
   * pairs, and of joined keys while approvers and the device are named without
   * a separator, a device is approved if and only if a chain of approvals, each
   * signed by an approved device of the same user, leads to it from that user's
   * first device. User ids may be anything.
   */
  lemma ApprovedExactlyByChain(repo: Repo, run: seq<Action>, user: string, id: string)
    requires Proper(run) && PlainApprovers(repo, run) && (repo.File? || CompositeKey.Plain(id))
    ensures IsApproved(repo, Reach(repo, run), user, id) <==> Trusted(run, |run|, user, id)
  {
    assert run[..|run|] == run;
    if IsApproved(repo, Reach(repo, run), user, id) {
      var links := ApprovedHasChain(repo, run, |run|, user, id);
      ApproversGivePlainLinks(repo, run, links);
      PlainChainIsOwn(repo, run, |run|, user, id, links);
    }
    if Trusted(run, |run|, user, id) {
      var links :| Chain(run, |run|, user, id, links);
      OwnChainIsNamed(repo, run, |run|, user, id, links);
      ChainIsApproved(repo, run, |run|, user, id, links);
    }
  }

  /** Step `i` is signed for its target by the device that its approver's name finds. */
  ghost predicate Backed(repo: Repo, run: seq<Action>, i: nat, e: nat, links: seq<Link>)
    requires i < |run| && run[i].Approve?
  {
    && e < i && Names(repo, run, e, run[i].user, run[i].approver)
    && NamedChain(repo, run, i, run[i].user, run[i].approver, links)
    && Signed(run, e, run[i].target, run[i].signature)
  }

  /**
   * An approval request is honoured if and only if its target is enrolled and
   * the device that the approver's name finds is approved and signed it; that
   * device is a stranger's exactly when records are kept under joined keys and
   * the name holds a separator.
   */
  lemma ApprovalIsHonouredExactly(repo: Repo, run: seq<Action>, i: nat)
    requires Proper(run) && i < |run| && run[i].Approve?
    ensures Step(repo, Before(repo, run, i), run[i]).0 == Done <==>
            && (exists t | 0 <= t < i :: Names(repo, run, t, run[i].user, run[i].target))
            && (exists e: nat, links :: Backed(repo, run, i, e, links))
    ensures forall e: nat, links :: Backed(repo, run, i, e, links) ==>
              (run[e].user != run[i].user <==> repo.InMemory? && !CompositeKey.Plain(run[i].approver))
  {
    var a, store := run[i], Before(repo, run, i);
    if Step(repo, store, a).0 == Done {
      var t := FoundWasEnrolled(repo, run, i, a.user, a.target);
      var e := FoundWasEnrolled(repo, run, i, a.user, a.approver);
      var links := ApprovedHasChain(repo, run, i, a.user, a.approver);
      assert Names(repo, run, t, a.user, a.target) && Backed(repo, run, i, e, links);
    }
    if t :| 0 <= t < i && Names(repo, run, t, a.user, a.target) {
      if e: nat, links :| Backed(repo, run, i, e, links) {
        ChainIsApproved(repo, run, i, a.user, a.approver, links);
        SignedApprovalPasses(repo, run, i, e, t);
      }
    }
    forall e: nat, links | Backed(repo, run, i, e, links)
      ensures run[e].user != a.user <==> repo.InMemory? && !CompositeKey.Plain(a.approver)
    {
      LookupFindsItsOwnExactly(repo, run, e, a.user, a.approver);
    }
  }

  /** Step `e` enrolled the device that the approver's name finds at step `i`. */
  predicate Approver(repo: Repo, run: seq<Action>, i: nat, e: nat) {
    e < i < |run| && run[i].Approve? && Names(repo, run, e, run[i].user, run[i].approver)
  }

  /** A chain of signed approvals leads to the approver. */
  ghost predicate ApproverIsTrusted(repo: Repo, run: seq<Action>, i: nat)
    requires i < |run| && run[i].Approve?
  {
    exists links :: NamedChain(repo, run, i, run[i].user, run[i].approver, links)
  }

  ghost predicate TargetIsEnrolled(repo: Repo, run: seq<Action>, i: nat)
    requires i < |run| && run[i].Approve?
  {
    exists t | 0 <= t < i :: Names(repo, run, t, run[i].user, run[i].target)
  }

  /** Why an approval request is refused, said about the requests before it. */
  lemma ApprovalIsRefusedExactly(repo: Repo, run: seq<Action>, i: nat)
    requires Proper(run) && i < |run| && run[i].Approve?
    ensures var outcome := Step(repo, Before(repo, run, i), run[i]).0;
            var trusted, enrolled := ApproverIsTrusted(repo, run, i), TargetIsEnrolled(repo, run, i);
            && (outcome == Refused(ApproverNotFound) <==> forall e: nat :: !Approver(repo, run, i, e))
            && (outcome == Refused(ApproverNotTrusted) <==> (exists e: nat :: Approver(repo, run, i, e)) && !trusted)
            && (outcome == Refused(TargetNotFound) <==> trusted && !enrolled)
            && (outcome == Threw <==>
                trusted && enrolled && exists e: nat :: Approver(repo, run, i, e) && run[e].signingKey.Malformed?)
            && (outcome == Refused(BadSignature) <==>
                && trusted && enrolled
                && exists e: nat :: Approver(repo, run, i, e) && run[e].signingKey.Key? &&
                               !Signed(run, e, run[i].target, run[i].signature))
  {
    var a, store := run[i], Before(repo, run, i);
    TrustIsApproval(repo, run, i);
    if Get(repo, store, a.user, a.approver).Some? {
      var e := FoundWasEnrolled(repo, run, i, a.user, a.approver);
      assert Approver(repo, run, i, e);
    }
    if Get(repo, store, a.user, a.target).Some? {
      var t := FoundWasEnrolled(repo, run, i, a.user, a.target);
      assert TargetIsEnrolled(repo, run, i);
    }
    forall e: nat | Approver(repo, run, i, e)
      ensures Get(repo, store, a.user, a.approver).Some?
      ensures Get(repo, store, a.user, a.approver).value.signingKey == run[e].signingKey
    {
      NamedIsStored(repo, run, e, i, a.user, a.approver);
    }
    forall t | 0 <= t < i && Names(repo, run, t, a.user, a.target) ensures Get(repo, store, a.user, a.target).Some? {
      NamedIsStored(repo, run, t, i, a.user, a.target);
    }
  }

  /** The approver is trusted exactly while its record is approved. */
  lemma TrustIsApproval(repo: Repo, run: seq<Action>, i: nat)
    requires Proper(run) && i < |run| && run[i].Approve?
    ensures ApproverIsTrusted(repo, run, i) <==> IsApproved(repo, Before(repo, run, i), run[i].user, run[i].approver)
  {
    var user, id := run[i].user, run[i].approver;
    if IsApproved(repo, Before(repo, run, i), user, id) {
      var links := ApprovedHasChain(repo, run, i, user, id);
      assert NamedChain(repo, run, i, run[i].user, run[i].approver, links);
    }
    if ApproverIsTrusted(repo, run, i) {
      var links :| NamedChain(repo, run, i, run[i].user, run[i].approver, links);
      ChainIsApproved(repo, run, i, user, id, links);
    }
  }

  /** All chains of a user start at one and the same device. */
  lemma OneFirstDevice(run: seq<Action>, e: nat, f: nat, user: string, id: string, other: string)
    requires FirstDevice(run, e, user, id) && FirstDevice(run, f, user, other)
    ensures e == f && id == other
  {
  }

  // -------- a name with a separator --------

  /** User "v" has a device and enrolls another; the approval of that names "x:r", and "v:x" enrolled "r". */
  const FOREIGN_APPROVER: seq<Action> :=
    [Enroll("v", "d", PublicKey.Key(1)), Enroll("v:x", "r", PublicKey.Key(7)), Enroll("v", "t", PublicKey.Key(9)),
     Approve("v", "x:r", "t", Signature(7, ApprovalMessage("t")))]

  lemma ForeignNames()
    ensures KeyOf(InMemory, "v", "x:r") == KeyOf(InMemory, "v:x", "r")
    ensures Proper(FOREIGN_APPROVER)
  {
    assert CompositeKey.Join("v", "x:r") == ['v', ':', 'x', ':', 'r'] == CompositeKey.Join("v:x", "r");
    assert !CompositeKey.Plain("x:r") by { assert "x:r"[1] == ':'; }
  }

  /** The store after each of the four steps. */
  lemma ForeignStates(repo: Repo)
    ensures var run := FOREIGN_APPROVER;
            var first := Step(repo, map[], run[0]).1;
            var second := Step(repo, first, run[1]).1;
            var third := Step(repo, second, run[2]).1;
            Before(repo, run, 3) == third && Reach(repo, run) == Step(repo, third, run[3]).1
  {
    var run := FOREIGN_APPROVER;
    assert run[..0] == [] && run[..4] == run;
    StepOf(repo, run, 0);
    StepOf(repo, run, 1);
    StepOf(repo, run, 2);
    StepOf(repo, run, 3);
  }

  /**
   * Under joined keys the approval is honoured although no chain of the user's
   * own devices leads to the device; in a store of pairs it is refused.
   */
  lemma ForeignApproverCounts()
    ensures Proper(FOREIGN_APPROVER) && !Trusted(FOREIGN_APPROVER, 4, "v", "t")
    ensures IsApproved(InMemory, Reach(InMemory, FOREIGN_APPROVER), "v", "t")
    ensures !IsApproved(File, Reach(File, FOREIGN_APPROVER), "v", "t")
  {
    ForeignNames();
    ForeignStates(InMemory);
    forall links: seq<Link> ensures !Chain(FOREIGN_APPROVER, 4, "v", "t", links) {
      if links != [] {
        assert !OwnLink(FOREIGN_APPROVER, 4, "v", "t", links[|links| - 1]);
      }
    }
    ApprovedExactlyByChain(File, FOREIGN_APPROVER, "v", "t");
  }

  // -------- the service --------

  class DeviceService {
    var items: Store
    const repo: Repo

    constructor (repo: Repo)
      ensures this.repo == repo && items == map[]
    {
      this.repo := repo;
      items := map[];
    }

    method EnrollDevice(user: string, random: string, signingKey: PublicKey) returns (rec: Device)
      modifies this
      ensures (Done, items) == Step(repo, old(items), Enroll(user, random, signingKey))
      ensures rec == Device(random, user, signingKey, !HasDevices(old(items), user))
    {
      var isFirst := !HasDevices(items, user);
      rec := Device(random, user, signingKey, isFirst);
      items := items[KeyOf(repo, user, rec.id) := rec];
    }

    method ApproveDevice(user: string, approver: string, target: string, signature: Signature) returns (r: Outcome)
      modifies this
      ensures (r, items) == Step(repo, old(items), Approve(user, approver, target, signature))
    {
      var from := Get(repo, items, user, approver);
      if from.None? {
        return Refused(ApproverNotFound);
      }
      if !from.value.approved {
        return Refused(ApproverNotTrusted);
      }
      var to := Get(repo, items, user, target);
      if to.None? {
        return Refused(TargetNotFound);
      }
      var valid := VerifyMessage(from.value.signingKey, ApprovalMessage(target), signature);
      if valid.None? {
        return Threw;
      }
      if !valid.value {
        return Refused(BadSignature);
      }
      SetApproved(user, target, true);
      r := Done;
    }

    method SetApproved(user: string, id: string, approved: bool)
      modifies this
      ensures items == WithApproval(old(items), KeyOf(repo, user, id), approved)
    {
      var key := KeyOf(repo, user, id);
      if key in items {
        items := items[key := items[key].(approved := approved)];
      }
    }
  }
}
