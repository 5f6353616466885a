/**
 * A whole sync amid other devices' pushes and deletions and lost requests and
 * replies: it keeps the cross-machine invariant, however it ends.
 */
module SyncWeather {
  import opened Common
  import opened Crypto
  import opened SyncRules
  import opened VaultService
  import opened Replicas
  import opened SyncSession
  import opened QuietSync
  import opened Reconciliation
  import opened SyncProtocol
  import opened Convergence

  /** Another device's push of an item it encrypted under the key, based on any version. */
  predicate HonestPut(key: Bytes, request: Request<Cipher>) {
    request.Put? && request.ciphertext == Sealed(key, request.ciphertext.plain) &&
      request.ciphertext.plain.id == request.id
  }

  /** All that others send are deletions and honest pushes. */
  ghost predicate HonestRequests(key: Bytes, requests: seq<Request<Cipher>>) {
    forall i :: 0 <= i < |requests| ==> requests[i].Remove? || HonestPut(key, requests[i])
  }

  /** Anything may be lost. */
  ghost predicate HonestWeather(key: Bytes, weather: seq<Weather>) {
    forall i :: 0 <= i < |weather| ==> HonestRequests(key, weather[i].others)
  }

  ghost predicate NoRemovals(weather: seq<Weather>) {
    forall i :: 0 <= i < |weather| ==> forall j :: 0 <= j < |weather[i].others| ==> !weather[i].others[j].Remove?
  }

  // -------- the world in the middle of a sync --------

  /** The devices while device `d` has this in memory. */
  function With(w: World, d: nat, memory: Replica): map<nat, Device>
    requires d in w.devices
  {
    w.devices[d := Device(memory, w.devices[d].disk, Idle)]
  }

  /** The world while the sync of device `d` has come so far. */
  function Midway(w: World, d: nat, memory: Replica, rows: Rows, accepted: map<Id, seq<VaultItem>>): World
    requires d in w.devices
  {
    World(rows, accepted, With(w, d, memory))
  }

  /** Each deletion comes while the row is still news to every device. */
  ghost predicate Tactful(devices: map<nat, Device>, requests: seq<Request<Cipher>>) {
    forall i :: 0 <= i < |requests| && requests[i].Remove? ==> Unnoticed(World(map[], map[], devices), requests[i].id)
  }

  lemma GrowthIsSound(key: Bytes, rows: Rows, accepted: map<Id, seq<VaultItem>>, devices: map<nat, Device>, rows': Rows,
                      later: map<Id, seq<VaultItem>>)
    requires Sound(key, World(rows, accepted, devices)) && Extends(accepted, later) && ServerOk(key, rows', later)
    ensures Sound(key, World(rows', later, devices))
  {
    forall d | d in devices ensures DeviceOk(key, later, devices[d]) {
      OkSurvives(key, accepted, later, devices[d]);
    }
  }

  lemma GrowthAddsUp(accepted: map<Id, seq<VaultItem>>, mid: map<Id, seq<VaultItem>>, later: map<Id, seq<VaultItem>>)
    requires Extends(accepted, mid) && Extends(mid, later)
    ensures Extends(accepted, later)
  {
  }

  lemma HonestPutIsSound(key: Bytes, rows: Rows, accepted: map<Id, seq<VaultItem>>, devices: map<nat, Device>,
                         request: Request<Cipher>)
    returns (later: map<Id, seq<VaultItem>>)
    requires Sound(key, World(rows, accepted, devices)) && HonestPut(key, request)
    ensures Extends(accepted, later)
    ensures Sound(key, World(Push(rows, request.id, request.ciphertext, request.base).0, later, devices))
  {
    PushAcceptsExactlySuccessors(rows, request.id, request.ciphertext, request.base);
    var item := request.ciphertext.plain;
    later := accepted;
    if Push(rows, request.id, request.ciphertext, request.base).1.Accepted? {
      AcceptKeepsServer(key, rows, accepted, item);
      later := Append(accepted, item.id, item);
      GrowthIsSound(key, rows, accepted, devices, Push(rows, request.id, request.ciphertext, request.base).0, later);
    }
  }

  lemma TactfulRemoveIsSound(key: Bytes, rows: Rows, accepted: map<Id, seq<VaultItem>>, devices: map<nat, Device>,
                             id: Id)
    requires Sound(key, World(rows, accepted, devices)) && Unnoticed(World(map[], map[], devices), id)
    ensures Sound(key, World(rows - {id}, accepted - {id}, devices))
  {
    var w := World(rows, accepted, devices);
    assert Unnoticed(w, id);
    DeletionIsSoundExactly(key, w, id);
    assert Apply(key, w, DeleteRow(id)) == World(rows - {id}, accepted - {id}, devices);
  }

  /** What others do between two requests of the sync. */
  lemma {:induction false} OthersAreSound(key: Bytes, s: Server<Cipher>, accepted: map<Id, seq<VaultItem>>,
                                          devices: map<nat, Device>, requests: seq<Request<Cipher>>)
    returns (later: map<Id, seq<VaultItem>>)
    requires Sound(key, World(s.rows, accepted, devices)) && HonestRequests(key, requests) && Tactful(devices, requests)
    ensures Sound(key, World(ServeAll(s, requests).rows, later, devices))
    ensures (forall i :: 0 <= i < |requests| ==> !requests[i].Remove?) ==> Extends(accepted, later)
    decreases |requests|
  {
    if requests == [] {
      later := accepted;
    } else {
      var mid;
      if requests[0].Remove? {
        TactfulRemoveIsSound(key, s.rows, accepted, devices, requests[0].id);
        mid := accepted - {requests[0].id};
      } else {
        mid := HonestPutIsSound(key, s.rows, accepted, devices, requests[0]);
      }
      later := OthersAreSound(key, Serve(s, requests[0]), mid, devices, requests[1..]);
      if forall i :: 0 <= i < |requests| ==> !requests[i].Remove? {
        forall i | 0 <= i < |requests[1..]| ensures !requests[1..][i].Remove? {
          assert requests[1..][i] == requests[i + 1];
        }
        GrowthAddsUp(accepted, mid, later);
      }
    }
  }

  lemma NowIsSound(key: Bytes, rows: Rows, accepted: map<Id, seq<VaultItem>>, devices: map<nat, Device>,
                   weather: seq<Weather>)
    returns (later: map<Id, seq<VaultItem>>)
    requires Sound(key, World(rows, accepted, devices)) && HonestWeather(key, weather)
    requires Tactful(devices, Now(weather).others)
    ensures Sound(key, World(ServeRows(rows, Now(weather).others), later, devices))
    ensures NoRemovals(weather) ==> Extends(accepted, later)
    ensures HonestWeather(key, Later(weather)) && (NoRemovals(weather) ==> NoRemovals(Later(weather)))
  {
    assert HonestRequests(key, Now(weather).others);
    later := OthersAreSound(key, Server(rows, []), accepted, devices, Now(weather).others);
  }

  // -------- the sync --------

  lemma AnswerKeepsFaith(key: Bytes, accepted: map<Id, seq<VaultItem>>, r: Replica, id: Id,
                         outcome: PushOutcome<Cipher>)
    requires Faithful(accepted, r) && FiledHistory(accepted) && id in r.items
    requires OutcomeOk(key, accepted, r.items[id], outcome)
    ensures AfterPush(r, key, id, outcome).Some? && Faithful(accepted, AfterPush(r, key, id, outcome).value)
  {
    match outcome {
      case Accepted(version) =>
      case Conflict(_, server) => AdoptKeepsFaith(key, accepted, r, id, server.value);
    }
  }

  /** The loop has met nothing it cannot read, and the world is sound. */
  ghost predicate SoundRun(key: Bytes, w: World, d: nat, accepted: map<Id, seq<VaultItem>>, run: PushRun)
    requires d in w.devices
  {
    && !run.ending.DecryptFailed? && HonestWeather(key, run.weather)
    && Sound(key, Midway(w, d, run.replica, run.rows, accepted))
  }

  lemma LostPushIsSound(key: Bytes, w: World, d: nat, mid: map<Id, seq<VaultItem>>, run: PushRun, id: Id)
    requires d in w.devices && id in run.replica.items && id in run.replica.meta
    requires Now(run.weather).fate.RequestLost? && HonestWeather(key, Later(run.weather))
    requires Sound(key, Midway(w, d, run.replica, ServeRows(run.rows, Now(run.weather).others), mid))
    ensures SoundRun(key, w, d, mid, PushOne(key, run, id))
  {
  }

  lemma ServedPushIsSound(key: Bytes, w: World, d: nat, later: map<Id, seq<VaultItem>>, run: PushRun, id: Id,
                          before: Rows, after: Rows, outcome: PushOutcome<Cipher>)
    requires d in w.devices && id in run.replica.items && id in run.replica.meta
    requires !Now(run.weather).fate.RequestLost? && HonestWeather(key, Later(run.weather))
    requires run.ending.Done? && before == ServeRows(run.rows, Now(run.weather).others)
    requires (after, outcome) == Push(before, id, Encrypt(key, run.replica.items[id]), Base(run.replica.meta[id]))
    requires var answered := AfterPush(run.replica, key, id, outcome);
             && answered.Some? && Sound(key, Midway(w, d, run.replica, after, later))
             && Sound(key, Midway(w, d, answered.value, after, later))
    ensures SoundRun(key, w, d, later, PushOne(key, run, id))
  {
  }

  lemma MemoryChangesSoundly(key: Bytes, w: World, d: nat, r: Replica, r': Replica, rows: Rows,
                             accepted: map<Id, seq<VaultItem>>)
    requires d in w.devices && Sound(key, Midway(w, d, r, rows, accepted)) && Faithful(accepted, r')
    ensures Sound(key, Midway(w, d, r', rows, accepted))
  {
    var before, after := Midway(w, d, r, rows, accepted), Midway(w, d, r', rows, accepted);
    forall e | e in after.devices ensures DeviceOk(key, accepted, after.devices[e]) {
      assert DeviceOk(key, accepted, before.devices[e]);
    }
  }

  lemma PushOneMovesOn(key: Bytes, run: PushRun, id: Id)
    requires id in run.replica.items && id in run.replica.meta
    ensures PushOne(key, run, id).weather == Later(run.weather)
  {
  }

  lemma PushOneIsSound(key: Bytes, w: World, d: nat, accepted: map<Id, seq<VaultItem>>, run: PushRun, id: Id)
    returns (later: map<Id, seq<VaultItem>>)
    requires d in w.devices && SoundRun(key, w, d, accepted, run) && run.ending.Done? && id in run.replica.meta
    requires id in run.replica.items && Tactful(With(w, d, run.replica), Now(run.weather).others)
    ensures SoundRun(key, w, d, later, PushOne(key, run, id))
    ensures NoRemovals(run.weather) ==> Extends(accepted, later) && NoRemovals(PushOne(key, run, id).weather)
  {
    var r, item := run.replica, run.replica.items[id];
    var mid := NowIsSound(key, run.rows, accepted, With(w, d, r), run.weather);
    var before := ServeRows(run.rows, Now(run.weather).others);
    if Now(run.weather).fate.RequestLost? {
      later := mid;
      LostPushIsSound(key, w, d, mid, run, id);
    } else {
      var (after, outcome) := Push(before, id, Encrypt(key, item), Base(r.meta[id]));
      later := ServedIsSound(key, w, d, mid, r, id, before);
      ServedPushIsSound(key, w, d, later, run, id, before, after, outcome);
      if NoRemovals(run.weather) {
        GrowthAddsUp(accepted, mid, later);
      }
    }
    PushOneMovesOn(key, run, id);
  }

  /** The push itself, as the server serves it and as the device takes its answer. */
  lemma ServedIsSound(key: Bytes, w: World, d: nat, mid: map<Id, seq<VaultItem>>, r: Replica, id: Id, before: Rows)
    returns (later: map<Id, seq<VaultItem>>)
    requires d in w.devices && id in r.items && id in r.meta && Sound(key, Midway(w, d, r, before, mid))
    ensures Extends(mid, later)
    ensures var (after, outcome) := Push(before, id, Encrypt(key, r.items[id]), Base(r.meta[id]));
            var answered := AfterPush(r, key, id, outcome);
            && answered.Some? && Sound(key, Midway(w, d, r, after, later))
            && Sound(key, Midway(w, d, answered.value, after, later))
  {
    var item := r.items[id];
    var (after, outcome) := Push(before, id, Encrypt(key, item), Base(r.meta[id]));
    assert DeviceOk(key, mid, With(w, d, r)[d]);
    assert item.id == id && 0 <= r.meta[id].version <= Known(mid, id);
    PushKeepsServer(key, before, mid, item, r.meta[id]);
    later := if outcome.Accepted? then Append(mid, id, item) else mid;
    GrowthIsSound(key, before, mid, With(w, d, r), after, later);
    assert DeviceOk(key, later, With(w, d, r)[d]);
    AnswerKeepsFaith(key, later, r, id, outcome);
    MemoryChangesSoundly(key, w, d, r, AfterPush(r, key, id, outcome).value, after, later);
  }

  /** Each deletion amid the push loop comes while the row is still news to every device. */
  ghost predicate CautiousPushes(key: Bytes, w: World, d: nat, run: PushRun, order: seq<Id>)
    requires d in w.devices
    requires forall i :: 0 <= i < |order| ==> order[i] in run.replica.items && order[i] in run.replica.meta
    decreases |order|
  {
    order != [] && run.ending.Done? ==>
      && Tactful(With(w, d, run.replica), Now(run.weather).others)
      && CautiousPushes(key, w, d, PushOne(key, run, order[0]), order[1..])
  }

  lemma {:induction false} PushAllIsSound(key: Bytes, w: World, d: nat, accepted: map<Id, seq<VaultItem>>, run: PushRun,
                                          order: seq<Id>)
    returns (later: map<Id, seq<VaultItem>>)
    requires d in w.devices && SoundRun(key, w, d, accepted, run)
    requires forall i :: 0 <= i < |order| ==> order[i] in run.replica.items && order[i] in run.replica.meta
    requires CautiousPushes(key, w, d, run, order)
    ensures SoundRun(key, w, d, later, PushAll(key, run, order))
    ensures NoRemovals(run.weather) ==> Extends(accepted, later) && NoRemovals(PushAll(key, run, order).weather)
    decreases |order|
  {
    if order == [] || !run.ending.Done? {
      later := accepted;
    } else {
      var next := PushOne(key, run, order[0]);
      var mid := PushOneIsSound(key, w, d, accepted, run, order[0]);
      PushAllSteps(key, run, [], order[0]);
      later := PushAllIsSound(key, w, d, mid, next, order[1..]);
      if NoRemovals(run.weather) {
        GrowthAddsUp(accepted, mid, later);
      }
    }
  }

  /** And each deletion before the pull. */
  ghost predicate CautiousSync(key: Bytes, w: World, d: nat, weather: seq<Weather>, order: seq<Id>)
    requires d in w.devices && Paired(w.devices[d].memory) && Visits(order, w.devices[d].memory)
  {
    var start := Start(w.devices[d].memory, w.rows, weather);
    var run := PushAll(key, start, order);
    && CautiousPushes(key, w, d, start, order)
    && (run.ending.Done? ==> Tactful(With(w, d, run.replica), Now(run.weather).others))
  }

  lemma FinishIsSound(key: Bytes, w: World, d: nat, accepted: map<Id, seq<VaultItem>>, run: PushRun,
                      list: seq<RemoteItem<Cipher>>)
    returns (later: map<Id, seq<VaultItem>>)
    requires d in w.devices && SoundRun(key, w, d, accepted, run)
    requires run.ending.Done? ==>
               && Tactful(With(w, d, run.replica), Now(run.weather).others)
               && Enumerates(list, ServeRows(run.rows, Now(run.weather).others))
    ensures var end := Finish(key, run, list);
            !end.ending.DecryptFailed? && Sound(key, Midway(w, d, end.replica, end.rows, later))
    ensures NoRemovals(run.weather) ==> Extends(accepted, later)
  {
    if run.ending.Done? {
      later := NowIsSound(key, run.rows, accepted, With(w, d, run.replica), run.weather);
      assert DeviceOk(key, later, With(w, d, run.replica)[d]);
      MergeKeepsFaith(key, later, run.replica, list);
      MemoryChangesSoundly(key, w, d, run.replica, MergePulled(run.replica, key, list).replica,
                           ServeRows(run.rows, Now(run.weather).others), later);
    } else {
      later := accepted;
    }
  }

  /** What such a sync of device `d` makes of the world, given what the server has accepted by then. */
  function Synced(w: World, d: nat, end: SyncRun, saved: bool, later: map<Id, seq<VaultItem>>): World
    requires d in w.devices
  {
    World(end.rows, later, w.devices[d := Store(w.devices[d], end.replica, saved)])
  }

  /**
   * A whole sync amid other devices' honest pushes, with any requests and
   * replies lost, never meets a row it cannot read, and takes sound worlds to
   * sound worlds wherever it stopped, whether or not its result reaches the
   * disk, if each deletion amid it comes while the row is still news to every
   * device; without deletions the server only adds to what it has accepted.
   */
  lemma SyncKeepsFaith(key: Bytes, w: World, d: nat, weather: seq<Weather>, order: seq<Id>,
                       list: seq<RemoteItem<Cipher>>, end: SyncRun, saved: bool)
    returns (later: map<Id, seq<VaultItem>>)
    requires Sound(key, w) && d in w.devices && HonestWeather(key, weather) && Paired(w.devices[d].memory)
    requires SyncsVia(key, w.devices[d].memory, w.rows, weather, order, list, end)
    requires CautiousSync(key, w, d, weather, order)
    ensures !end.ending.DecryptFailed? && Sound(key, Synced(w, d, end, saved, later))
    ensures NoRemovals(weather) ==> Extends(w.accepted, later)
  {
    var start := Start(w.devices[d].memory, w.rows, weather);
    StartIsSound(key, w, d, weather);
    var mid := PushAllIsSound(key, w, d, w.accepted, start, order);
    later := FinishIsSound(key, w, d, mid, PushAll(key, start, order), list);
    if NoRemovals(weather) {
      GrowthAddsUp(w.accepted, mid, later);
    }
    EndIsSound(key, w, d, end, saved, later);
  }

  lemma StartIsSound(key: Bytes, w: World, d: nat, weather: seq<Weather>)
    requires Sound(key, w) && d in w.devices && HonestWeather(key, weather)
    ensures SoundRun(key, w, d, w.accepted, Start(w.devices[d].memory, w.rows, weather))
  {
    var begun := Midway(w, d, w.devices[d].memory, w.rows, w.accepted);
    forall e | e in begun.devices ensures DeviceOk(key, w.accepted, begun.devices[e]) {
      assert DeviceOk(key, w.accepted, w.devices[e]);
    }
  }

  lemma EndIsSound(key: Bytes, w: World, d: nat, end: SyncRun, saved: bool, later: map<Id, seq<VaultItem>>)
    requires d in w.devices && Sound(key, Midway(w, d, end.replica, end.rows, later))
    ensures Sound(key, Synced(w, d, end, saved, later))
  {
    var mid, after := Midway(w, d, end.replica, end.rows, later), Synced(w, d, end, saved, later);
    forall e | e in after.devices ensures DeviceOk(key, later, after.devices[e]) {
      assert DeviceOk(key, later, mid.devices[e]);
    }
  }

  /** Whatever order the edited items are visited in, the deletions amid the sync meet the guard. */
  ghost predicate CautiousWeather(key: Bytes, w: World, d: nat, weather: seq<Weather>)
    requires d in w.devices && Paired(w.devices[d].memory)
  {
    forall order: seq<Id> :: Visits(order, w.devices[d].memory) ==> CautiousSync(key, w, d, weather, order)
  }

  lemma {:induction false} WithoutRemovalsIsCautious(key: Bytes, w: World, d: nat, run: PushRun, order: seq<Id>)
    requires d in w.devices && NoRemovals(run.weather)
    requires forall i :: 0 <= i < |order| ==> order[i] in run.replica.items && order[i] in run.replica.meta
    ensures CautiousPushes(key, w, d, run, order) && NoRemovals(PushAll(key, run, order).weather)
    decreases |order|
  {
    if order != [] && run.ending.Done? {
      PushAllSteps(key, run, [], order[0]);
      WithoutRemovalsIsCautious(key, w, d, PushOne(key, run, order[0]), order[1..]);
    }
  }

  lemma FairWeatherIsCautious(key: Bytes, w: World, d: nat, weather: seq<Weather>)
    requires d in w.devices && Paired(w.devices[d].memory) && NoRemovals(weather)
    ensures CautiousWeather(key, w, d, weather)
  {
    forall order: seq<Id> | Visits(order, w.devices[d].memory) ensures CautiousSync(key, w, d, weather, order) {
      WithoutRemovalsIsCautious(key, w, d, Start(w.devices[d].memory, w.rows, weather), order);
    }
  }

  /** The same for the syncs as the app computes them; weather without deletions is always cautious. */
  lemma AnySyncIsSound(key: Bytes, w: World, d: nat, weather: seq<Weather>, end: SyncRun, saved: bool)
    returns (later: map<Id, seq<VaultItem>>)
    requires Sound(key, w) && d in w.devices && HonestWeather(key, weather) && Paired(w.devices[d].memory)
    requires CautiousWeather(key, w, d, weather) || NoRemovals(weather)
    requires SyncsTo(key, w.devices[d].memory, w.rows, weather, end)
    ensures !end.ending.DecryptFailed? && Sound(key, Synced(w, d, end, saved, later))
    ensures NoRemovals(weather) ==> Extends(w.accepted, later)
  {
    if NoRemovals(weather) {
      FairWeatherIsCautious(key, w, d, weather);
    }
    var r := w.devices[d].memory;
    var order: seq<Id>, list: seq<RemoteItem<Cipher>> :| SyncsVia(key, r, w.rows, weather, order, list, end);
    later := SyncKeepsFaith(key, w, d, weather, order, list, end, saved);
  }

  /** However a sync was disturbed, the first quiet one after it succeeds and ends in agreement. */
  lemma CalmAfterStorm(key: Bytes, w: World, d: nat, weather: seq<Weather>, end: SyncRun, calm: SyncRun)
    requires Sound(key, w) && d in w.devices && HonestWeather(key, weather) && Paired(w.devices[d].memory)
    requires CautiousWeather(key, w, d, weather) || NoRemovals(weather)
    requires SyncsTo(key, w.devices[d].memory, w.rows, weather, end)
    requires Paired(end.replica) && SyncsTo(key, end.replica, end.rows, [], calm)
    ensures calm.ending.Done? && Paired(calm.replica) && Agrees(key, calm.replica, calm.rows)
  {
    var later := AnySyncIsSound(key, w, d, weather, end, false);
    var after := Synced(w, d, end, false, later);
    SoundDevicesCanSync(key, after, d);
    QuietSyncSettles(key, end.replica, end.rows, calm);
    QuietSyncAgreesExactly(key, end.replica, end.rows, calm);
  }
}
