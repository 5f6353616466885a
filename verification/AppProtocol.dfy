/** The app's methods, one after another, as steps of the protocol. */
module AppProtocol {
  import opened Common
  import opened Crypto
  import opened SyncRules
  import opened Replicas
  import opened QuietSync
  import opened Reconciliation
  import opened SyncSession
  import opened SyncProtocol
  import opened VaultApp

  /** What is on disk reads back as this replica; nothing was ever written for an empty one. */
  ghost predicate OnDisk(raw: Option<Blob<Persisted>>, key: Bytes, disk: Replica) {
    Stored(raw, key, disk) || (raw.None? && disk == EMPTY)
  }

  /** Between two of its calls the app is this device of the protocol. */
  ghost predicate Is(app: App, key: Bytes, device: Device)
    reads app, app.store
  {
    app.View() == device.memory && OnDisk(app.store.raw, key, device.disk) && device.phase.Idle?
  }

  /** Unlocking while unlocked. */
  method UnlockStep(app: App, key: array<Byte>, ghost rows: Replicas.Rows, ghost device: Device)
    requires key.Length == 32 && Is(app, key[..], device) && Filed(device.disk)
    modifies app
    ensures app.key == key && Is(app, key[..], Act(key[..], rows, device, UnlockAgain(0)))
  {
    if app.store.raw.Some? {
      ReloadOverlaysExactly(device.disk, app.store.raw.value.plain);
    }
    var result := app.UnlockWithKey(key);
  }

  /** Locking, or a crash, and then unlocking from disk. */
  method RestartStep(app: App, key: array<Byte>, ghost rows: Replicas.Rows, ghost device: Device)
    requires key.Length == 32 && app.key != key && Is(app, key[..], device) && Filed(device.disk)
    modifies app, app.key
    ensures app.key == key && Is(app, key[..], Act(key[..], rows, device, Restart(0)))
  {
    if app.store.raw.Some? {
      ReloadOverlaysExactly(device.disk, app.store.raw.value.plain);
    }
    app.Lock();
    var result := app.UnlockWithKey(key);
    assert Overlay(EMPTY, device.disk) == device.disk;
  }

  /** Adding an item under the random id that the app draws. */
  method AddStep(app: App, id: Id, body: string, ghost rows: Replicas.Rows, ghost device: Device)
    requires app.key != null && Is(app, app.key[..], device) && id !in device.memory.meta
    modifies app, app.store
    ensures app.key == old(app.key)
    ensures Is(app, app.key[..], Act(app.key[..], rows, device, AddItem(0, VaultItem(id, body), true)))
  {
    var result := app.Add(id, body);
  }

  method UpdateStep(app: App, id: Id, body: string, ghost rows: Replicas.Rows, ghost device: Device)
    requires app.key != null && Is(app, app.key[..], device) && Paired(device.memory)
    modifies app, app.store
    ensures app.key == old(app.key)
    ensures Is(app, app.key[..], Act(app.key[..], rows, device, EditItem(0, id, body, true)))
  {
    var result := app.Update(id, body);
  }

  /** The sync, in quiet weather, of an app that holds an edit made when it was at `before`. */
  method SyncEdit(app: App, ghost before: Replica, ghost item: VaultItem)
    returns (result: Result<Summary>, ghost end: SyncRun)
    requires app.key != null && Paired(app.View()) && Paired(before) && item.id in before.meta
    requires Marked(before, app.View(), item, before.meta[item.id].version)
    requires app.transport != null && app.transport.Valid() && app.transport.weather == []
    modifies app`items, app`meta, app.store, app.transport, app.transport.service.repo
    ensures app.transport.Valid() && app.View() == end.replica && app.transport.Rows() == end.rows
    ensures result == if end.ending.Done? then Success(end.summary) else Failed(Interrupted(end.ending))
    ensures result.Success? ==> EditSynced(app.key[..], before, old(app.transport.Rows()), item, end)
  {
    ghost var r := app.View();
    result, end := app.Sync();
    if end.ending.Done? {
      EditThenSync(app.key[..], before, r, old(app.transport.Rows()), item, end);
    }
  }

  /**
   * An edit and then a sync that nothing disturbs: the edit becomes the next
   * version of the server's row exactly when that row is at the version the app
   * held before the edit; either way the pull counts the rows not met before.
   */
  method UpdateAndSync(app: App, id: Id, body: string) returns (result: Result<Summary>, ghost end: SyncRun)
    requires app.key != null && Paired(app.View()) && id in app.items
    requires app.transport != null && app.transport.Valid() && app.transport.weather == []
    modifies app, app.store, app.transport, app.transport.service.repo
    ensures app.transport.Valid() && app.View() == end.replica && app.transport.Rows() == end.rows
    ensures result == if end.ending.Done? then Success(end.summary) else Failed(Interrupted(end.ending))
    ensures result.Success? ==>
              EditSynced(old(app.key[..]), old(app.View()), old(app.transport.Rows()), VaultItem(id, body), end)
  {
    ghost var before := app.View();
    var updated := app.Update(id, body);
    result, end := SyncEdit(app, before, VaultItem(id, body));
  }

  /** A sync: the device ends with what the session left in memory, and on disk exactly if it reached its end. */
  method SyncStep(app: App, ghost device: Device) returns (ghost end: SyncRun)
    requires app.key != null && Is(app, app.key[..], device) && Paired(device.memory)
    requires app.transport != null && app.transport.Valid()
    modifies app`items, app`meta, app.store, app.transport, app.transport.service.repo
    ensures app.transport.Valid() && app.key == old(app.key)
    ensures SyncsTo(app.key[..], device.memory, old(app.transport.Rows()), old(app.transport.weather), end)
    ensures app.transport.Rows() == end.rows
    ensures Is(app, app.key[..], Store(device, end.replica, end.ending.Done?))
  {
    var result;
    result, end := app.Sync();
  }
}
