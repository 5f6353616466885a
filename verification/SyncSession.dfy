/**
 * One whole sync as a function: a push per dirty item, then one pull, each
 * request meeting whatever other devices do and whatever the network loses.
 */
module SyncSession {
  import opened Common
  import opened Crypto
  import opened SyncRules
  import opened VaultService
  import opened Replicas

  /** What surrounds one request: other devices' requests served before it, and its fate. */
  datatype Weather = Weather(others: seq<Request<Cipher>>, fate: Fate)

  const CALM := Weather([], Delivered)

  function Now(weather: seq<Weather>): Weather {
    if weather == [] then CALM else weather[0]
  }

  function Later(weather: seq<Weather>): seq<Weather> {
    if weather == [] then [] else weather[1..]
  }

  function ServeRows(rows: Rows, requests: seq<Request<Cipher>>): Rows {
    ServeAll(Server(rows, []), requests).rows
  }

  /** One push over the network; no reply stands for the exception the transport throws. */
  function Exchange(rows: Rows, w: Weather, id: Id, blob: Cipher, base: Option<int>)
    : (Rows, Option<PushOutcome<Cipher>>)
  {
    var before := ServeRows(rows, w.others);
    if w.fate.RequestLost? then (before, None)
    else
      var (after, outcome) := Push(before, id, blob, base);
      (after, if w.fate.ReplyLost? then None else Some(outcome))
  }

  datatype Ending = Done | TransportFailed | DecryptFailed

  datatype PushRun = PushRun(ending: Ending, replica: Replica, rows: Rows, pushed: nat, conflicts: nat,
                             weather: seq<Weather>)

  /** One step of the push loop. */
  function PushOne(key: Bytes, run: PushRun, id: Id): PushRun
    requires id in run.replica.items && id in run.replica.meta
  {
    var blob := Encrypt(key, run.replica.items[id]);
    var (rows, reply) := Exchange(run.rows, Now(run.weather), id, blob, Base(run.replica.meta[id]));
    var next := run.(rows := rows, weather := Later(run.weather));
    match reply
    case None => next.(ending := TransportFailed)
    case Some(outcome) =>
      var counted := if outcome.Accepted? then next.(pushed := run.pushed + 1)
        else next.(conflicts := run.conflicts + 1);
      match AfterPush(run.replica, key, id, outcome)
      case None => counted.(ending := DecryptFailed)
      case Some(replica) => counted.(replica := replica)
  }

  /** The push loop over `order`; it stops at the first failure. */
  function PushAll(key: Bytes, run: PushRun, order: seq<Id>): PushRun
    requires forall i :: 0 <= i < |order| ==> order[i] in run.replica.items && order[i] in run.replica.meta
    decreases |order|
  {
    if order == [] || !run.ending.Done? then run else PushAll(key, PushOne(key, run, order[0]), order[1..])
  }

  datatype Summary = Summary(pushed: nat, pulled: nat, conflicts: nat)

  datatype SyncRun = SyncRun(ending: Ending, replica: Replica, rows: Rows, summary: Summary)

  /** The pull that ends a sync, over the rows `list` delivers. */
  function Finish(key: Bytes, run: PushRun, list: seq<RemoteItem<Cipher>>): SyncRun {
    if !run.ending.Done? then SyncRun(run.ending, run.replica, run.rows, Summary(run.pushed, 0, run.conflicts))
    else
      var rows := ServeRows(run.rows, Now(run.weather).others);
      if !Now(run.weather).fate.Delivered?
      then SyncRun(TransportFailed, run.replica, rows, Summary(run.pushed, 0, run.conflicts))
      else
        var merge := MergePulled(run.replica, key, list);
        SyncRun(if merge.ok then Done else DecryptFailed, merge.replica, rows,
          Summary(run.pushed, merge.pulled, run.conflicts))
  }

  function Start(r: Replica, rows: Rows, weather: seq<Weather>): PushRun {
    PushRun(Done, r, rows, 0, 0, weather)
  }

  /** `order` visits each edited item of the replica once. */
  ghost predicate Visits(order: seq<Id>, r: Replica) {
    && (forall i, j :: 0 <= i < j < |order| ==> order[i] != order[j])
    && (forall i :: 0 <= i < |order| ==> order[i] in r.meta && r.meta[order[i]].dirty)
    && (forall id :: id in r.meta && r.meta[id].dirty ==> exists i :: 0 <= i < |order| && order[i] == id)
  }

  /**
   * `end` is how a sync of `r` against `rows` can end: some visiting order of
   * the edited items, then some listing of the rows as the pull finds them.
   */
  ghost predicate SyncsTo(key: Bytes, r: Replica, rows: Rows, weather: seq<Weather>, end: SyncRun)
    requires Paired(r)
  {
    exists order: seq<Id>, list: seq<RemoteItem<Cipher>> ::
      SyncsVia(key, r, rows, weather, order, list, end)
  }

  /** The sync that pushes in the order `order` and pulls the listing `list` ends in `end`. */
  ghost predicate SyncsVia(key: Bytes, r: Replica, rows: Rows, weather: seq<Weather>,
                           order: seq<Id>, list: seq<RemoteItem<Cipher>>, end: SyncRun)
    requires Paired(r)
  {
    && Visits(order, r)
    && var run := PushAll(key, Start(r, rows, weather), order);
       && (run.ending.Done? ==> Enumerates(list, ServeRows(run.rows, Now(run.weather).others)))
       && end == Finish(key, run, list)
  }

  // -------- the loops, one step at a time --------

  lemma {:induction false} PushAllSteps(key: Bytes, run: PushRun, order: seq<Id>, id: Id)
    requires forall i :: 0 <= i < |order| ==> order[i] in run.replica.items && order[i] in run.replica.meta
    requires id in run.replica.items && id in run.replica.meta
    ensures var before := PushAll(key, run, order);
            && before.replica.items.Keys == run.replica.items.Keys
            && before.replica.meta.Keys == run.replica.meta.Keys
            && PushAll(key, run, order + [id]) == if before.ending.Done? then PushOne(key, before, id) else before
    decreases |order|
  {
    if order == [] {
      assert (order + [id])[1..] == [];
    } else if run.ending.Done? {
      assert (order + [id])[1..] == order[1..] + [id];
      var next := PushOne(key, run, order[0]);
      assert next.replica.items.Keys == run.replica.items.Keys;
      assert next.replica.meta.Keys == run.replica.meta.Keys;
      PushAllSteps(key, next, order[1..], id);
    }
  }
}
