/** Moving a vault to a new key: rekey, then sync. */
module Rekeying {
  import opened Common
  import opened Crypto
  import opened SyncRules
  import opened VaultService
  import opened Replicas
  import opened SyncSession
  import opened QuietSync
  import opened Reconciliation
  import opened SyncProtocol
  import opened Convergence

  ghost predicate AllUnder(key: Bytes, rows: Rows) {
    forall id :: id in rows ==> rows[id].ciphertext.key == key
  }

  predicate KnowsRow(r: Replica, rows: Rows, id: Id) {
    id in r.meta && id in rows && Base(r.meta[id]) == Some(rows[id].version)
  }

  /** After a rekey the sync has to read exactly the rows that the device did not know. */
  lemma RekeyedMustRead(r: Replica, rows: Rows, id: Id)
    requires Paired(r)
    ensures Paired(Rekeyed(r))
    ensures MustRead(At(Rekeyed(r), rows, id)) <==> id in rows && !KnowsRow(r, rows, id)
  {
  }

  lemma RekeyedSettles(newKey: Bytes, r: Replica, rows: Rows, id: Id)
    requires Paired(r) && KnowsRow(r, rows, id)
    ensures Paired(Rekeyed(r))
    ensures Settled(newKey, At(Rekeyed(r), rows, id)) ==
            Both(Some(Entry(r.items[id], Meta(rows[id].version + 1, false))),
              Some(Row(Sealed(newKey, r.items[id]), rows[id].version + 1)))
  {
  }

  /** The server took the device's item under the new key, one version up. */
  ghost predicate MovedTo(newKey: Bytes, r: Replica, rows: Rows, end: SyncRun, id: Id)
    requires Paired(r) && Paired(end.replica) && id in rows && id in r.items
  {
    && RowAt(end.rows, id) == Some(Row(Encrypt(newKey, r.items[id]), rows[id].version + 1))
    && EntryAt(end.replica, id) == Some(Entry(r.items[id], Meta(rows[id].version + 1, false)))
  }

  /**
   * While the server still holds the old key's rows, the sync after a rekey
   * succeeds exactly when the device knew every row at the server's version;
   * otherwise it meets a row that the new key cannot open. When it succeeds,
   * each row holds the device's item under the new key, one version up.
   */
  lemma SyncAfterRekey(oldKey: Bytes, newKey: Bytes, r: Replica, rows: Rows, end: SyncRun)
    requires Paired(r) && oldKey != newKey && AllUnder(oldKey, rows)
    requires SyncsTo(newKey, Rekeyed(r), rows, [], end)
    ensures Paired(end.replica)
    ensures end.ending.Done? <==> forall id :: id in rows ==> KnowsRow(r, rows, id)
    ensures !end.ending.Done? ==> end.ending.DecryptFailed?
    ensures end.ending.Done? ==> forall id :: id in rows ==> KnowsRow(r, rows, id) && MovedTo(newKey, r, rows, end, id)
  {
    var q := Rekeyed(r);
    QuietSyncSettles(newKey, q, rows, end);
    forall id | id in rows ensures MustRead(At(q, rows, id)) <==> !KnowsRow(r, rows, id) {
      RekeyedMustRead(r, rows, id);
    }
    if end.ending.Done? {
      forall id | id in rows ensures KnowsRow(r, rows, id) && MovedTo(newKey, r, rows, end, id) {
        assert !MustRead(At(q, rows, id));
        RekeyedSettles(newKey, r, rows, id);
        assert At(end.replica, end.rows, id) == Settled(newKey, At(q, rows, id));
      }
    }
  }

  /** The row opens under the new key to what it held under the old one, which no longer opens it. */
  ghost predicate RowMoved(oldKey: Bytes, newKey: Bytes, rows: Rows, after: Rows, id: Id)
    requires id in rows
  {
    && id in after
    && Decrypt(newKey, after[id].ciphertext) == Decrypt(oldKey, rows[id].ciphertext)
    && Decrypt(newKey, after[id].ciphertext).Some?
    && Decrypt(oldKey, after[id].ciphertext) == None
    && after[id].version == rows[id].version + 1
  }

  // -------- on the way to the new key --------

  /**
   * One item while the vault moves: the server still holds it as it was and
   * the device still has to push it, or the server holds it under the new key,
   * one version up, and the device knows that or is about to be told.
   */
  predicate Moving(newKey: Bytes, was: Both, now: Both) {
    if was.row.None? || was.entry.None? then now == was
    else
      var item, version := was.entry.value.item, was.row.value.version;
      && now.entry.Some? && now.entry.value.item == item
      && (now.entry.value.meta == Meta(version, true)
          || (now.entry.value.meta == Meta(version + 1, false) && now.row != was.row))
      && (now.row == was.row || now.row == Some(Row(Sealed(newKey, item), version + 1)))
  }

  ghost predicate OnTheWay(newKey: Bytes, r: Replica, rows: Rows, q: Replica, now: Rows)
    requires Paired(r)
  {
    Paired(q) && forall id :: Moving(newKey, At(r, rows, id), At(q, now, id))
  }

  /** Rows only ever change from what they were to the new key. */
  ghost predicate Onward(rows: Rows, now: Rows, later: Rows) {
    forall id :: RowAt(later, id) == RowAt(now, id) || RowAt(now, id) == RowAt(rows, id)
  }

  lemma RekeyedIsOnTheWay(oldKey: Bytes, newKey: Bytes, r: Replica, rows: Rows)
    requires Paired(r) && Agrees(oldKey, r, rows)
    ensures OnTheWay(newKey, r, rows, Rekeyed(r), rows)
  {
    var q := Rekeyed(r);
    forall id ensures Moving(newKey, At(r, rows, id), At(q, rows, id)) {
      assert Agreed(oldKey, At(r, rows, id));
    }
  }

  /** A replica left behind is still on the way when another has moved rows on. */
  lemma OthersStayOnTheWay(newKey: Bytes, r: Replica, rows: Rows, q: Replica, now: Rows, behind: Replica, later: Rows)
    requires Paired(r) && OnTheWay(newKey, r, rows, behind, now) && OnTheWay(newKey, r, rows, q, later) &&
             Onward(rows, now, later)
    ensures OnTheWay(newKey, r, rows, behind, later)
  {
    forall id ensures Moving(newKey, At(r, rows, id), At(behind, later, id)) {
      assert Moving(newKey, At(r, rows, id), At(behind, now, id)) && Moving(newKey, At(r, rows, id), At(q, later, id));
    }
  }

  /** Only this device's requests reach the server; any of them, or their replies, may be lost. */
  ghost predicate Alone(weather: seq<Weather>) {
    forall i :: 0 <= i < |weather| ==> weather[i].others == []
  }

  ghost predicate RunOnTheWay(oldKey: Bytes, newKey: Bytes, r: Replica, rows: Rows, run: PushRun) {
    && Paired(r) && Agrees(oldKey, r, rows) && (forall id :: id in rows ==> rows[id].version >= 1)
    && Alone(run.weather) && !run.ending.DecryptFailed? && OnTheWay(newKey, r, rows, run.replica, run.rows)
  }

  lemma PushOneMovesOn(oldKey: Bytes, newKey: Bytes, r: Replica, rows: Rows, run: PushRun, id: Id)
    requires RunOnTheWay(oldKey, newKey, r, rows, run) && run.ending.Done?
    requires id in run.replica.meta && run.replica.meta[id].dirty
    ensures var next := PushOne(newKey, run, id);
            && RunOnTheWay(oldKey, newKey, r, rows, next) && Onward(rows, run.rows, next.rows)
            && forall other :: other != id ==> EntryAt(next.replica, other) == EntryAt(run.replica, other)
  {
    var next := PushOne(newKey, run, id);
    assert ServeRows(run.rows, Now(run.weather).others) == run.rows;
    assert Agreed(oldKey, At(r, rows, id)) && Moving(newKey, At(r, rows, id), At(run.replica, run.rows, id));
    forall other
      ensures Moving(newKey, At(r, rows, other), At(next.replica, next.rows, other))
      ensures RowAt(next.rows, other) == RowAt(run.rows, other) || RowAt(run.rows, other) == RowAt(rows, other)
      ensures other != id ==> EntryAt(next.replica, other) == EntryAt(run.replica, other)
    {
      assert Moving(newKey, At(r, rows, other), At(run.replica, run.rows, other));
    }
  }

  lemma OnwardAddsUp(newKey: Bytes, r: Replica, rows: Rows, q: Replica, first: Rows, second: Rows, third: Rows)
    requires Paired(r) && OnTheWay(newKey, r, rows, q, second) && Onward(rows, first, second) &&
             Onward(rows, second, third)
    ensures Onward(rows, first, third)
  {
    forall id ensures RowAt(third, id) == RowAt(first, id) || RowAt(first, id) == RowAt(rows, id) {
      assert RowAt(second, id) == RowAt(first, id) || RowAt(first, id) == RowAt(rows, id);
    }
  }

  lemma {:induction false} PushAllMovesOn(oldKey: Bytes, newKey: Bytes, r: Replica, rows: Rows, run: PushRun,
                                          order: seq<Id>)
    requires RunOnTheWay(oldKey, newKey, r, rows, run)
    requires forall i, j :: 0 <= i < j < |order| ==> order[i] != order[j]
    requires forall i :: 0 <= i < |order| ==> order[i] in run.replica.meta && run.replica.meta[order[i]].dirty
    ensures RunOnTheWay(oldKey, newKey, r, rows, PushAll(newKey, run, order))
    ensures Onward(rows, run.rows, PushAll(newKey, run, order).rows)
    decreases |order|
  {
    if order != [] && run.ending.Done? {
      var next := PushOne(newKey, run, order[0]);
      PushOneMovesOn(oldKey, newKey, r, rows, run, order[0]);
      forall i | 0 <= i < |order[1..]| ensures order[1..][i] in next.replica.meta &&
        next.replica.meta[order[1..][i]].dirty {
        assert order[1..][i] == order[i + 1];
        assert EntryAt(next.replica, order[i + 1]) == EntryAt(run.replica, order[i + 1]);
      }
      PushAllMovesOn(oldKey, newKey, r, rows, next, order[1..]);
      OnwardAddsUp(newKey, r, rows, next.replica, run.rows, next.rows, PushAll(newKey, next, order[1..]).rows);
    }
  }

  /** A row that is news is under the new key, and holds the device's own item. */
  lemma NewsIsTheSameItem(newKey: Bytes, r: Replica, rows: Rows, q: Replica, now: Rows, item: RemoteItem<Cipher>)
    requires Paired(r) && OnTheWay(newKey, r, rows, q, now) && item.id in now && now[item.id] == item.row &&
             IsNews(q, item)
    requires forall id :: id in rows ==> id in r.items
    ensures item.row.ciphertext.key == newKey
    ensures OnTheWay(newKey, r, rows, Adopt(q, item.id, item.row.ciphertext.plain, item.row.version), now)
  {
    assert Moving(newKey, At(r, rows, item.id), At(q, now, item.id));
    var adopted := Adopt(q, item.id, item.row.ciphertext.plain, item.row.version);
    forall id ensures Moving(newKey, At(r, rows, id), At(adopted, now, id)) {
      assert Moving(newKey, At(r, rows, id), At(q, now, id));
    }
  }

  lemma {:induction false} PullMovesOn(newKey: Bytes, r: Replica, rows: Rows, q: Replica, now: Rows,
                                       list: seq<RemoteItem<Cipher>>)
    requires Paired(r) && OnTheWay(newKey, r, rows, q, now) && forall id :: id in rows ==> id in r.items
    requires forall i :: 0 <= i < |list| ==> list[i].id in now && now[list[i].id] == list[i].row
    ensures MergePulled(q, newKey, list).ok && OnTheWay(newKey, r, rows, MergePulled(q, newKey, list).replica, now)
    decreases |list|
  {
    if list != [] {
      if IsNews(q, list[0]) {
        NewsIsTheSameItem(newKey, r, rows, q, now, list[0]);
        PullMovesOn(newKey, r, rows, Adopt(q, list[0].id, list[0].row.ciphertext.plain, list[0].row.version), now,
          list[1..]);
      } else {
        PullMovesOn(newKey, r, rows, q, now, list[1..]);
      }
    }
  }

  lemma SyncMovesOn(oldKey: Bytes, newKey: Bytes, r: Replica, rows: Rows, q: Replica, now: Rows,
                    weather: seq<Weather>, end: SyncRun)
    requires Paired(r) && Paired(q) && RunOnTheWay(oldKey, newKey, r, rows, Start(q, now, weather))
    requires SyncsTo(newKey, q, now, weather, end)
    ensures OnTheWay(newKey, r, rows, end.replica, end.rows) && Onward(rows, now, end.rows) &&
            !end.ending.DecryptFailed?
  {
    var order: seq<Id>, list: seq<RemoteItem<Cipher>> :| SyncsVia(newKey, q, now, weather, order, list, end);
    var run := PushAll(newKey, Start(q, now, weather), order);
    PushAllMovesOn(oldKey, newKey, r, rows, Start(q, now, weather), order);
    assert ServeRows(run.rows, Now(run.weather).others) == run.rows;
    if run.ending.Done? && Now(run.weather).fate.Delivered? {
      forall id | id in rows ensures id in r.items {
        assert Agreed(oldKey, At(r, rows, id));
      }
      PullMovesOn(newKey, r, rows, run.replica, run.rows, list);
    }
  }

  /** One attempt at a sync: what the network did to it, how it ended, and whether the app restarted after it. */
  datatype Attempt = Attempt(weather: seq<Weather>, end: SyncRun, restarts: bool)

  /** Only a finished sync is written to disk. */
  function DiskAfter(disk: Replica, a: Attempt): Replica {
    if a.end.ending.Done? then a.end.replica else disk
  }

  function MemoryAfter(disk: Replica, a: Attempt): Replica {
    if a.restarts then DiskAfter(disk, a) else a.end.replica
  }

  /** The attempts, one after another, take the device and the rows to `memory'` and `rows'`. */
  ghost predicate Attempted(key: Bytes, disk: Replica, memory: Replica, rows: Rows, attempts: seq<Attempt>,
                            memory': Replica, rows': Rows)
    decreases |attempts|
  {
    if attempts == [] then memory' == memory && rows' == rows
    else
      && Paired(memory) && Alone(attempts[0].weather)
      && SyncsTo(key, memory, rows, attempts[0].weather, attempts[0].end)
      && Attempted(key, DiskAfter(disk, attempts[0]), MemoryAfter(disk, attempts[0]), attempts[0].end.rows,
         attempts[1..], memory', rows')
  }

  lemma {:induction false} AttemptsMoveOn(oldKey: Bytes, newKey: Bytes, r: Replica, rows: Rows, disk: Replica,
                                          memory: Replica,
                                          now: Rows, attempts: seq<Attempt>, memory': Replica, rows': Rows)
    requires Paired(r) && Agrees(oldKey, r, rows) && forall id :: id in rows ==> rows[id].version >= 1
    requires OnTheWay(newKey, r, rows, disk, now) && OnTheWay(newKey, r, rows, memory, now)
    requires Attempted(newKey, disk, memory, now, attempts, memory', rows')
    ensures OnTheWay(newKey, r, rows, memory', rows')
    decreases |attempts|
  {
    if attempts != [] {
      var a := attempts[0];
      SyncMovesOn(oldKey, newKey, r, rows, memory, now, a.weather, a.end);
      OthersStayOnTheWay(newKey, r, rows, a.end.replica, now, disk, a.end.rows);
      AttemptsMoveOn(oldKey, newKey, r, rows, DiskAfter(disk, a), MemoryAfter(disk, a), a.end.rows, attempts[1..],
        memory', rows');
    }
  }

  /** The item under the new key, one version up, on the device and on the server. */
  function Arrived(newKey: Bytes, was: Both): Both {
    if was.row.None? || was.entry.None? then was
    else
      var item, version := was.entry.value.item, was.row.value.version + 1;
      Both(Some(Entry(item, Meta(version, false))), Some(Row(Sealed(newKey, item), version)))
  }

  lemma MovingSettles(oldKey: Bytes, newKey: Bytes, was: Both, now: Both)
    requires Agreed(oldKey, was) && Moving(newKey, was, now) && (was.row.Some? ==> was.row.value.version >= 1)
    ensures MustRead(now) ==> now.row.value.ciphertext.key == newKey
    ensures Settled(newKey, now) == Arrived(newKey, was)
  {
  }

  lemma ArrivedIsMoved(oldKey: Bytes, newKey: Bytes, r: Replica, rows: Rows, q: Replica, after: Rows, id: Id)
    requires Paired(r) && Paired(q) && oldKey != newKey
    requires Agreed(oldKey, At(r, rows, id)) && At(q, after, id) == Arrived(newKey, At(r, rows, id))
    ensures Agreed(newKey, At(q, after, id))
    ensures id in rows <==> id in after
    ensures id in rows ==> RowMoved(oldKey, newKey, rows, after, id)
    ensures id in q.items <==> id in r.items
    ensures id in q.items ==> q.items[id] == r.items[id]
  {
  }

  /** Every row moved, and the device agrees with the new ones and holds the items it held. */
  ghost predicate AllMoved(oldKey: Bytes, newKey: Bytes, r: Replica, rows: Rows, end: SyncRun) {
    && end.ending.Done? && Paired(end.replica) && Agrees(newKey, end.replica, end.rows) && end.replica.items == r.items
    && end.rows.Keys == rows.Keys && forall id :: id in rows ==> RowMoved(oldKey, newKey, rows, end.rows, id)
  }

  /**
   * Re-key safety: a device in agreement with the server under the old key
   * rekeys, tries to sync any number of times with any requests and replies
   * lost and any restarts from disk, and then syncs quietly. The server then
   * has the same ids; each row opens under the new key to the item it held
   * before and no longer under the old one, exactly one version up; and the
   * device agrees with it.
   */
  lemma RekeySafety(oldKey: Bytes, newKey: Bytes, r: Replica, rows: Rows, attempts: seq<Attempt>,
                                   memory: Replica, now: Rows, end: SyncRun)
    requires Paired(r) && oldKey != newKey && Agrees(oldKey, r, rows) && forall id :: id in rows ==>
             rows[id].version >= 1
    requires Attempted(newKey, Rekeyed(r), Rekeyed(r), rows, attempts, memory, now)
    requires Paired(memory) && SyncsTo(newKey, memory, now, [], end)
    ensures AllMoved(oldKey, newKey, r, rows, end)
  {
    RekeyedIsOnTheWay(oldKey, newKey, r, rows);
    AttemptsMoveOn(oldKey, newKey, r, rows, Rekeyed(r), Rekeyed(r), rows, attempts, memory, now);
    QuietSyncSettles(newKey, memory, now, end);
    forall id
      ensures MustRead(At(memory, now, id)) ==> now[id].ciphertext.key == newKey
      ensures Settled(newKey, At(memory, now, id)) == Arrived(newKey, At(r, rows, id))
    {
      assert Agreed(oldKey, At(r, rows, id));
      MovingSettles(oldKey, newKey, At(r, rows, id), At(memory, now, id));
    }
    AllArrived(oldKey, newKey, r, rows, end);
  }

  lemma AllArrived(oldKey: Bytes, newKey: Bytes, r: Replica, rows: Rows, end: SyncRun)
    requires Paired(r) && Paired(end.replica) && oldKey != newKey && Agrees(oldKey, r, rows) && end.ending.Done?
    requires forall id :: At(end.replica, end.rows, id) == Arrived(newKey, At(r, rows, id))
    ensures AllMoved(oldKey, newKey, r, rows, end)
  {
    forall id
      ensures Agreed(newKey, At(end.replica, end.rows, id))
      ensures id in rows <==> id in end.rows
      ensures id in rows ==> RowMoved(oldKey, newKey, rows, end.rows, id)
      ensures id in end.replica.items <==> id in r.items
      ensures id in end.replica.items ==> end.replica.items[id] == r.items[id]
    {
      assert Agreed(oldKey, At(r, rows, id));
      ArrivedIsMoved(oldKey, newKey, r, rows, end.replica, end.rows, id);
    }
    assert end.replica.items == r.items;
  }

  /**
   * The same over whole runs: from any world that a run reaches whose deletions
   * come before any device has heard of the row, an idle device syncs quietly,
   * rekeys, and syncs again, interrupted any number of times before it is quiet.
   */
  lemma RekeyAfterAnyRun(oldKey: Bytes, newKey: Bytes, devices: set<nat>, actions: seq<Action>, d: nat, synced: SyncRun,
                         attempts: seq<Attempt>, memory: Replica, now: Rows, end: SyncRun)
    requires oldKey != newKey && Cautious(oldKey, Fresh(devices), actions)
    requires var w := Run(oldKey, Fresh(devices), actions);
             && d in w.devices && w.devices[d].phase.Idle? && Paired(w.devices[d].memory)
             && SyncsTo(oldKey, w.devices[d].memory, w.rows, [], synced)
             && Paired(synced.replica)
             && Attempted(newKey, Rekeyed(synced.replica), Rekeyed(synced.replica), synced.rows,
                attempts, memory, now)
             && Paired(memory) && SyncsTo(newKey, memory, now, [], end)
    ensures AllMoved(oldKey, newKey, synced.replica, synced.rows, end)
  {
    QuietSyncConverges(oldKey, devices, actions, d, synced);
    RowsStayVersioned(oldKey, devices, actions, d, synced);
    RekeySafety(oldKey, newKey, synced.replica, synced.rows, attempts, memory, now, end);
  }

  lemma RowsStayVersioned(key: Bytes, devices: set<nat>, actions: seq<Action>, d: nat, synced: SyncRun)
    requires Cautious(key, Fresh(devices), actions)
    requires var w := Run(key, Fresh(devices), actions);
             && d in w.devices && w.devices[d].phase.Idle? && Paired(w.devices[d].memory)
             && SyncsTo(key, w.devices[d].memory, w.rows, [], synced)
    ensures forall id :: id in synced.rows ==> synced.rows[id].version >= 1
  {
    EveryRunIsSound(key, devices, actions);
    var w := Run(key, Fresh(devices), actions);
    SoundDevicesCanSync(key, w, d);
    QuietSyncSettles(key, w.devices[d].memory, w.rows, synced);
    forall id | id in synced.rows ensures synced.rows[id].version >= 1 {
      assert id in w.rows ==> RowOk(key, w.accepted, id, w.rows[id]);
      SettledRowVersion(key, At(w.devices[d].memory, w.rows, id));
      assert At(synced.replica, synced.rows, id) == Settled(key, At(w.devices[d].memory, w.rows, id));
      assert RowAt(synced.rows, id) == Some(synced.rows[id]);
    }
  }

  lemma SettledRowVersion(key: Bytes, b: Both)
    requires b.row.Some? ==> b.row.value.version >= 1
    ensures Settled(key, b).row.Some? ==> Settled(key, b).row.value.version >= 1
  {
  }
}
