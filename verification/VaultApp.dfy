/** The app core: the only holder of the master key and of decrypted items. */
module VaultApp {
  import opened Common
  import opened Crypto
  import opened SyncRules
  import opened CompositeKey
  import opened VaultService
  import opened Replicas
  import opened SyncSession
  import opened QuietSync

  datatype Failure = Locked | BadKey | WrongKey | NoItem | Offline | Interrupted(ending: Ending)

  datatype Result<+T> = Success(value: T) | Failed(why: Failure)

  /** The one on-disk blob. */
  class LocalStore {
    var raw: Option<Blob<Persisted>>

    constructor ()
      ensures raw == None
    {
      raw := None;
    }
  }

  /** The network between one device and the sync engine, with the weather it will meet. */
  class Transport {
    const service: VaultService<Cipher>
    const user: string
    var weather: seq<Weather>

    constructor (service: VaultService<Cipher>, user: string, weather: seq<Weather>)
      ensures this.service == service && this.user == user && this.weather == weather
    {
      this.service := service;
      this.user := user;
      this.weather := weather;
    }

    ghost predicate Valid()
      reads service.repo
    {
      service.repo.Valid() && Plain(user)
    }

    ghost function Rows(): Replicas.Rows
      requires Valid()
      reads service.repo
    {
      RowsOf(service.repo.items, user)
    }

    /** Other devices of the same user get their requests served. */
    method ServeOthers(requests: seq<Request<Cipher>>)
      requires Valid()
      modifies service.repo
      ensures Valid() && Rows() == ServeRows(old(Rows()), requests)
    {
      ghost var history: seq<Event<Cipher>> := [];
      for i := 0 to |requests|
        invariant Valid()
        invariant ServeAll(Server(old(Rows()), []), requests) == ServeAll(Server(Rows(), history), requests[i..])
      {
        ghost var server := Server(Rows(), history);
        assert requests[i..][1..] == requests[i + 1..];
        match requests[i] {
          case Put(id, ciphertext, base) =>
            var outcome := service.Push(user, id, ciphertext, base);
          case Remove(id) =>
            service.Delete(user, id);
        }
        history := Serve(server, requests[i]).history;
      }
    }

    method Push(id: Id, blob: Cipher, base: Option<int>) returns (reply: Option<PushOutcome<Cipher>>)
      requires Valid()
      modifies this`weather, service.repo
      ensures Valid() && weather == Later(old(weather))
      ensures (Rows(), reply) == Exchange(old(Rows()), Now(old(weather)), id, blob, base)
    {
      var now := Now(weather);
      weather := Later(weather);
      ServeOthers(now.others);
      if now.fate.RequestLost? {
        return None;
      }
      var outcome := service.Push(user, id, blob, base);
      reply := if now.fate.ReplyLost? then None else Some(outcome);
    }

    method Pull() returns (reply: Option<seq<RemoteItem<Cipher>>>)
      requires Valid()
      modifies this`weather, service.repo
      ensures Valid() && weather == Later(old(weather))
      ensures Rows() == ServeRows(old(Rows()), Now(old(weather)).others)
      ensures reply.Some? <==> Now(old(weather)).fate.Delivered?
      ensures reply.Some? ==> Enumerates(reply.value, Rows())
    {
      var now := Now(weather);
      weather := Later(weather);
      ServeOthers(now.others);
      if !now.fate.Delivered? {
        return None;
      }
      var list := service.Pull(user);
      reply := Some(list);
    }
  }

  /** The blob on disk opens with `key` and writes out the whole replica. */
  ghost predicate Stored(raw: Option<Blob<Persisted>>, key: Bytes, r: Replica) {
    raw.Some? && raw.value.key == key && Saves(raw.value.plain, r)
  }

  method KeysInOrder(keys: set<Id>) returns (ids: seq<Id>)
    ensures Lists(ids, keys)
  {
    ids := [];
    var todo := keys;
    while todo != {}
      invariant todo <= keys
      invariant forall i, j :: 0 <= i < j < |ids| ==> ids[i] != ids[j]
      invariant forall i :: 0 <= i < |ids| ==> ids[i] in keys && ids[i] !in todo
      invariant forall id :: id in keys && id !in todo ==> exists i :: 0 <= i < |ids| && ids[i] == id
      decreases todo
    {
      var id :| id in todo;
      todo := todo - {id};
      ghost var before := ids;
      ids := ids + [id];
      forall other | other in keys && other !in todo ensures exists i :: 0 <= i < |ids| && ids[i] == other {
        if other == id {
          assert ids[|ids| - 1] == other;
        } else {
          var i :| 0 <= i < |before| && before[i] == other;
          assert ids[i] == other;
        }
      }
    }
  }

  lemma {:induction false} SomeOrder(keys: set<Id>) returns (ids: seq<Id>)
    ensures Lists(ids, keys)
    decreases keys
  {
    if keys == {} {
      ids := [];
    } else {
      var id :| id in keys;
      var rest := SomeOrder(keys - {id});
      ids := [id] + rest;
      forall other | other in keys ensures exists i :: 0 <= i < |ids| && ids[i] == other {
        if other == id {
          assert ids[0] == other;
        } else {
          assert other in keys - {id};
          var i :| 0 <= i < |rest| && rest[i] == other;
          assert ids[i + 1] == other;
        }
      }
    }
  }

  lemma {:induction false} PushAllStops(key: Bytes, run: PushRun, order: seq<Id>, rest: seq<Id>)
    requires forall i :: 0 <= i < |order| ==> order[i] in run.replica.items && order[i] in run.replica.meta
    requires forall i :: 0 <= i < |rest| ==> rest[i] in run.replica.items && rest[i] in run.replica.meta
    requires !PushAll(key, run, order).ending.Done?
    ensures PushAll(key, run, order + rest) == PushAll(key, run, order)
    decreases |order|
  {
    if order == [] {
      assert order + rest == rest;
    } else if run.ending.Done? {
      assert (order + rest)[1..] == order[1..] + rest;
      var next := PushOne(key, run, order[0]);
      assert next.replica.items.Keys == run.replica.items.Keys && next.replica.meta.Keys == run.replica.meta.Keys;
      PushAllStops(key, next, order[1..], rest);
    }
  }

  /** A sync that failed in its push loop ended as some complete visiting order would have. */
  lemma FailedPushEnds(key: Bytes, r: Replica, rows: Replicas.Rows, weather: seq<Weather>, order: seq<Id>, end: SyncRun)
    requires Paired(r)
    requires forall i, j :: 0 <= i < j < |order| ==> order[i] != order[j]
    requires forall i :: 0 <= i < |order| ==> order[i] in r.meta && r.meta[order[i]].dirty
    requires var run := PushAll(key, Start(r, rows, weather), order);
             !run.ending.Done? && end == Finish(key, run, [])
    ensures SyncsTo(key, r, rows, weather, end)
  {
    var unvisited := set id | id in r.meta && r.meta[id].dirty && id !in order;
    var rest := SomeOrder(unvisited);
    var all := order + rest;
    PushAllStops(key, Start(r, rows, weather), order, rest);
    forall id | id in r.meta && r.meta[id].dirty ensures exists i :: 0 <= i < |all| && all[i] == id {
      if id in order {
        var i :| 0 <= i < |order| && order[i] == id;
        assert all[i] == id;
      } else {
        assert id in unvisited;
        var i :| 0 <= i < |rest| && rest[i] == id;
        assert all[|order| + i] == id;
      }
    }
    assert SyncsVia(key, r, rows, weather, all, [], end);
  }

  lemma PullEnds(key: Bytes, r: Replica, rows: Replicas.Rows, weather: seq<Weather>, order: seq<Id>,
                 list: seq<RemoteItem<Cipher>>, end: SyncRun)
    requires Paired(r) && Visits(order, r)
    requires var run := PushAll(key, Start(r, rows, weather), order);
             && (run.ending.Done? ==> Enumerates(list, ServeRows(run.rows, Now(run.weather).others)))
             && end == Finish(key, run, list)
    ensures SyncsTo(key, r, rows, weather, end)
  {
    assert SyncsVia(key, r, rows, weather, order, list, end);
  }

  lemma FinishMerges(key: Bytes, run: PushRun, list: seq<RemoteItem<Cipher>>, merge: Merge)
    requires run.ending.Done? && Now(run.weather).fate.Delivered? && merge == MergePulled(run.replica, key, list)
    ensures Finish(key, run, list) ==
            SyncRun(if merge.ok then Done else DecryptFailed, merge.replica,
              ServeRows(run.rows, Now(run.weather).others),
                    Summary(run.pushed, merge.pulled, run.conflicts))
  {
  }

  /** `order` lists the edited ids looked at so far; those in `todo` are as they were. */
  ghost predicate Visiting(order: seq<Id>, r: Replica, now: map<Id, Meta>, todo: set<Id>) {
    && now.Keys == r.meta.Keys && todo <= r.meta.Keys
    && (forall i, j :: 0 <= i < j < |order| ==> order[i] != order[j])
    && (forall i :: 0 <= i < |order| ==> order[i] in r.meta && r.meta[order[i]].dirty && order[i] !in todo)
    && (forall id :: id in r.meta && r.meta[id].dirty && id !in todo ==> exists i :: 0 <= i < |order| && order[i] == id)
    && (forall id :: id in todo ==> now[id] == r.meta[id])
  }

  lemma VisitNext(order: seq<Id>, r: Replica, now: map<Id, Meta>, todo: set<Id>, id: Id)
    requires Visiting(order, r, now, todo) && id in todo
    ensures !now[id].dirty ==> Visiting(order, r, now, todo - {id})
    ensures now[id].dirty ==> forall later: map<Id, Meta> ::
              later.Keys == now.Keys && (forall other :: other in now && other != id ==> later[other] == now[other]) ==>
                Visiting(order + [id], r, later, todo - {id})
  {
    var next := order + [id];
    forall other | other in r.meta && r.meta[other].dirty && other !in todo - {id} && now[id].dirty
      ensures exists i :: 0 <= i < |next| && next[i] == other
    {
      if other == id {
        assert next[|order|] == other;
      } else {
        var i :| 0 <= i < |order| && order[i] == other;
        assert next[i] == other;
      }
    }
  }

  /** A turn of the push loop, put together from its exchange and what the answer did. */
  lemma PushOneFits(key: Bytes, run: PushRun, id: Id, rows: Replicas.Rows, reply: Option<PushOutcome<Cipher>>,
                    ok: bool, after: Replica)
    requires run.ending.Done? && id in run.replica.items && id in run.replica.meta
    requires (rows, reply) ==
             Exchange(run.rows, Now(run.weather), id, Encrypt(key, run.replica.items[id]), Base(run.replica.meta[id]))
    requires reply.Some? ==> AfterPush(run.replica, key, id, reply.value) == if ok then Some(after) else None
    ensures PushOne(key, run, id) ==
            if reply.None? then run.(ending := TransportFailed, rows := rows, weather := Later(run.weather))
            else PushRun(if ok then Done else DecryptFailed, if ok then after else run.replica, rows,
                         run.pushed + (if reply.value.Accepted? then 1 else 0),
                         run.conflicts + (if reply.value.Accepted? then 0 else 1), Later(run.weather))
  {
  }

  class App {
    var key: array?<Byte>
    var items: map<Id, VaultItem>
    var meta: map<Id, Meta>
    const store: LocalStore
    const transport: Transport?

    constructor (store: LocalStore, transport: Transport?)
      ensures this.store == store && this.transport == transport
      ensures key == null && View() == EMPTY
    {
      key := null;
      items := map[];
      meta := map[];
      this.store := store;
      this.transport := transport;
    }

    ghost function View(): Replica
      reads this
    {
      Replica(items, meta)
    }

    /** Open the disk with `key` and lay what it holds over memory; a wrong key changes nothing. */
    method UnlockWithKey(key: array<Byte>) returns (result: Result<()>)
      modifies this
      ensures result ==
              if key.Length != 32 then Failed(BadKey)
              else if store.raw.Some? && store.raw.value.key != key[..] then Failed(WrongKey)
              else Success(())
      ensures result.Failed? ==> this.key == old(this.key) && View() == old(View())
      ensures result.Success? ==>
                && this.key == key
                && View() == if store.raw.Some? then Load(old(View()), store.raw.value.plain) else old(View())
    {
      if key.Length != 32 {
        return Failed(BadKey);
      }
      if store.raw.Some? {
        var plain := Decrypt(key[..], store.raw.value);
        if plain.None? {
          return Failed(WrongKey);
        }
        var saved := plain.value;
        for i := 0 to |saved.items|
          invariant LoadItems(old(items), saved.items) == LoadItems(items, saved.items[i..])
          invariant meta == old(meta) && this.key == old(this.key)
        {
          assert saved.items[i..][1..] == saved.items[i + 1..];
          items := items[saved.items[i].id := saved.items[i]];
        }
        for i := 0 to |saved.meta|
          invariant LoadMeta(old(meta), saved.meta) == LoadMeta(meta, saved.meta[i..])
          invariant items == LoadItems(old(items), saved.items) && this.key == old(this.key)
        {
          assert saved.meta[i..][1..] == saved.meta[i + 1..];
          meta := meta[saved.meta[i].id := Meta(saved.meta[i].version, saved.meta[i].dirty)];
        }
      }
      this.key := key;
      return Success(());
    }

    /** A fresh copy of the live key. */
    method SnapshotKey() returns (copy: array?<Byte>)
      ensures key == null <==> copy == null
      ensures copy != null ==> fresh(copy) && copy[..] == key[..]
    {
      if key == null {
        return null;
      }
      var k := key;
      copy := new Byte[k.Length](i requires 0 <= i < k.Length reads k => k[i]);
    }

    /** Wipe the key buffer and forget every item. */
    method Lock()
      modifies this, key
      ensures key == null && View() == EMPTY
      ensures old(key) != null ==> forall i :: 0 <= i < old(key).Length ==> old(key)[i] == 0
    {
      if key != null {
        ZeroKey(key);
      }
      key := null;
      items := map[];
      meta := map[];
    }

    method Add(id: Id, body: string) returns (result: Result<VaultItem>)
      modifies this, store
      ensures key == old(key)
      ensures key == null ==> result == Failed(Locked) && View() == old(View()) && store.raw == old(store.raw)
      ensures key != null ==>
                && result == Success(VaultItem(id, body))
                && View() == Replicas.Add(old(View()), VaultItem(id, body))
                && Marked(old(View()), View(), VaultItem(id, body), 0)
                && Stored(store.raw, key[..], View())
    {
      if key == null {
        return Failed(Locked);
      }
      var item := VaultItem(id, body);
      items := items[item.id := item];
      meta := meta[item.id := Meta(0, true)];
      Persist(key);
      return Success(item);
    }

    method Update(id: Id, body: string) returns (result: Result<VaultItem>)
      requires Paired(View())
      modifies this, store
      ensures key == old(key)
      ensures result.Success? <==> key != null && id in old(items)
      ensures result.Failed? ==>
                && result == Failed(if key == null then Locked else NoItem)
                && View() == old(View()) && store.raw == old(store.raw)
      ensures result.Success? ==>
                && result.value == VaultItem(id, body)
                && View() == Edit(old(View()), id, body)
                && Marked(old(View()), View(), VaultItem(id, body), old(meta)[id].version)
                && Stored(store.raw, key[..], View())
    {
      if key == null {
        return Failed(Locked);
      }
      if id !in items {
        return Failed(NoItem);
      }
      items := items[id := VaultItem(id, body)];
      meta := meta[id := Meta(meta[id].version, true)];
      Persist(key);
      return Success(items[id]);
    }

    /**
     * Re-encrypt everything under a new key: mark all items edited, wipe the
     * old key buffer, write the blob. The new key must be another buffer: if
     * it is the live one, the wipe takes it too.
     */
    method Rekey(newKey: array<Byte>) returns (result: Result<()>)
      modifies this, store, key
      ensures result == if old(key) == null then Failed(Locked) else if newKey.Length != 32 then Failed(BadKey)
              else Success(())
      ensures result.Failed? ==>
                && key == old(key) && View() == old(View()) && store.raw == old(store.raw)
                && (key != null ==> key[..] == old(key[..]))
      ensures result.Success? ==>
                && key == newKey
                && View() == Rekeyed(old(View()))
                && Stored(store.raw, newKey[..], View())
                && (newKey != old(key) ==> newKey[..] == old(newKey[..]))
                && (newKey == old(key) ==> forall i :: 0 <= i < newKey.Length ==> newKey[i] == 0)
                && (newKey[..] == old(newKey[..]) <==>
                   newKey != old(key) || forall i :: 0 <= i < newKey.Length ==> old(newKey[i]) == 0)
    {
      if key == null {
        return Failed(Locked);
      }
      if newKey.Length != 32 {
        return Failed(BadKey);
      }
      var oldKey := key;
      var todo := meta.Keys;
      while todo != {}
        invariant todo <= meta.Keys == old(meta).Keys
        invariant forall id :: id in meta ==> meta[id] == if id in todo then old(meta)[id]
                  else Meta(old(meta)[id].version, true)
        invariant items == old(items) && key == oldKey && oldKey[..] == old(key[..]) && newKey[..] == old(newKey[..])
        invariant store.raw == old(store.raw)
        decreases todo
      {
        var id :| id in todo;
        todo := todo - {id};
        meta := meta[id := Meta(meta[id].version, true)];
      }
      ZeroKey(oldKey);
      key := newKey;
      assert View() == Rekeyed(old(View()));
      Persist(newKey);
      return Success(());
    }

    /** Act on the server's answer to a push; `false` is the exception of a row that does not decrypt. */
    method TakeAnswer(live: array<Byte>, id: Id, outcome: PushOutcome<Cipher>) returns (ok: bool)
      requires Paired(View()) && id in meta
      modifies this`items, this`meta
      ensures Paired(View())
      ensures AfterPush(old(View()), live[..], id, outcome) == if ok then Some(View()) else None
      ensures !ok ==> View() == old(View())
      ensures meta.Keys == old(meta).Keys && forall other :: other in meta && other != id ==>
              meta[other] == old(meta)[other]
    {
      match outcome {
        case Accepted(version) =>
          meta := meta[id := Meta(version, false)];
        case Conflict(_, server) =>
          if server.Some? {
            var remote := Decrypt(live[..], server.value.ciphertext);
            if remote.None? {
              return false;
            }
            items := items[id := remote.value];
            meta := meta[id := Meta(server.value.version, false)];
          }
      }
      ok := true;
    }

    /** One turn of the push loop: push an edited item and act on the answer. */
    method PushItem(live: array<Byte>, transport: Transport, id: Id, pushed: nat, conflicts: nat)
      returns (ending: Ending, pushed': nat, conflicts': nat)
      requires Paired(View()) && transport.Valid() && id in meta
      modifies this`items, this`meta, transport, transport.service.repo
      ensures transport.Valid() && Paired(View())
      ensures PushOne(live[..], PushRun(Done, old(View()), old(transport.Rows()), pushed, conflicts,
              old(transport.weather)), id) ==
              PushRun(ending, View(), transport.Rows(), pushed', conflicts', transport.weather)
      ensures meta.Keys == old(meta).Keys && forall other :: other in meta && other != id ==>
              meta[other] == old(meta)[other]
    {
      pushed', conflicts' := pushed, conflicts;
      var reply := transport.Push(id, Encrypt(live[..], items[id]), Base(meta[id]));
      ghost var run := PushRun(Done, View(), old(transport.Rows()), pushed, conflicts, old(transport.weather));
      if reply.None? {
        PushOneFits(live[..], run, id, transport.Rows(), reply, false, View());
        return TransportFailed, pushed', conflicts';
      }
      if reply.value.Accepted? {
        pushed' := pushed' + 1;
      } else {
        conflicts' := conflicts' + 1;
      }
      var ok := TakeAnswer(live, id, reply.value);
      PushOneFits(live[..], run, id, transport.Rows(), reply, ok, View());
      ending := if ok then Done else DecryptFailed;
    }

    /** The push loop of a sync, in whatever order the metadata lists its ids. */
    method PushEdits(live: array<Byte>, transport: Transport)
      returns (ending: Ending, pushed: nat, conflicts: nat, ghost order: seq<Id>)
      requires Paired(View()) && transport.Valid()
      modifies this`items, this`meta, transport, transport.service.repo
      ensures transport.Valid() && Paired(View())
      ensures forall i, j :: 0 <= i < j < |order| ==> order[i] != order[j]
      ensures forall i :: 0 <= i < |order| ==> order[i] in old(meta) && old(meta)[order[i]].dirty
      ensures PushAll(live[..], Start(old(View()), old(transport.Rows()), old(transport.weather)), order) ==
              PushRun(ending, View(), transport.Rows(), pushed, conflicts, transport.weather)
      ensures ending.Done? ==> Visits(order, old(View()))
    {
      ending, pushed, conflicts, order := Done, 0, 0, [];
      ghost var r := View();
      ghost var start := Start(r, transport.Rows(), transport.weather);
      var todo := meta.Keys;
      while todo != {} && ending.Done?
        invariant transport.Valid() && Paired(View()) && Visiting(order, r, meta, todo)
        invariant PushAll(live[..], start, order) ==
                  PushRun(ending, View(), transport.Rows(), pushed, conflicts, transport.weather)
        decreases todo
      {
        var id :| id in todo;
        VisitNext(order, r, meta, todo, id);
        todo := todo - {id};
        if meta[id].dirty {
          PushAllSteps(live[..], start, order, id);
          order := order + [id];
          ending, pushed, conflicts := PushItem(live, transport, id, pushed, conflicts);
        }
      }
    }

    /** The merge loop of a sync; it stops at the first row that does not decrypt. */
    method MergeRemote(live: array<Byte>, remote: seq<RemoteItem<Cipher>>) returns (ok: bool, pulled: nat)
      requires Paired(View())
      modifies this`items, this`meta
      ensures Paired(View()) && Merge(ok, View(), pulled) == MergePulled(old(View()), live[..], remote)
      ensures ok && DistinctIds(remote) ==> pulled == |NewIn(old(View()), remote)|
    {
      pulled := 0;
      MergeKeepsPaired(View(), live[..], remote);
      if MergePulled(View(), live[..], remote).ok && DistinctIds(remote) {
        PulledAreNew(View(), live[..], remote);
      }
      for i := 0 to |remote|
        invariant MergePulled(old(View()), live[..], remote) ==
                  var rest := MergePulled(View(), live[..], remote[i..]); rest.(pulled := rest.pulled + pulled)
      {
        assert remote[i..][1..] == remote[i + 1..];
        if IsNews(Replica(items, meta), remote[i]) {
          var item := Decrypt(live[..], remote[i].row.ciphertext);
          if item.None? {
            return false, pulled;
          }
          items := items[remote[i].id := item.value];
          meta := meta[remote[i].id := Meta(remote[i].row.version, false)];
          pulled := pulled + 1;
        }
      }
      return true, pulled;
    }

    /** The pull of a sync and its merge: what `Finish` says of some listing of the rows. */
    method PullAndMerge(live: array<Byte>, transport: Transport, pushed: nat, conflicts: nat)
      returns (ending: Ending, pulled: nat, ghost list: seq<RemoteItem<Cipher>>)
      requires Paired(View()) && transport.Valid()
      modifies this`items, this`meta, transport, transport.service.repo
      ensures transport.Valid() && Paired(View())
      ensures Enumerates(list, ServeRows(old(transport.Rows()), Now(old(transport.weather)).others))
      ensures Finish(live[..], PushRun(Done, old(View()), old(transport.Rows()), pushed, conflicts,
              old(transport.weather)), list) ==
              SyncRun(ending, View(), transport.Rows(), Summary(pushed, pulled, conflicts))
    {
      ghost var run := PushRun(Done, View(), transport.Rows(), pushed, conflicts, transport.weather);
      pulled := 0;
      var reply := transport.Pull();
      if reply.None? {
        list := SomeListing(transport.Rows());
        ending := TransportFailed;
        return;
      }
      list := reply.value;
      var ok;
      ok, pulled := MergeRemote(live, reply.value);
      FinishMerges(live[..], run, list, Merge(ok, View(), pulled));
      ending := if ok then Done else DecryptFailed;
    }

    /** The sync of an unlocked device over a network. */
    method SyncOver(live: array<Byte>, transport: Transport)
      returns (ghost end: SyncRun, summary: Summary, ending: Ending)
      requires Paired(View()) && transport.Valid()
      modifies this`items, this`meta, store, transport, transport.service.repo
      ensures transport.Valid() && Paired(View())
      ensures SyncsTo(live[..], old(View()), old(transport.Rows()), old(transport.weather), end)
      ensures View() == end.replica && transport.Rows() == end.rows
      ensures ending == end.ending && (ending.Done? ==> summary == end.summary)
      ensures if ending.Done? then Stored(store.raw, live[..], View()) else store.raw == old(store.raw)
    {
      end, ending, summary := RunSession(live, transport);
      if ending.Done? {
        Persist(live);
      }
    }

    /** Its requests, before anything is written to disk. */
    method RunSession(live: array<Byte>, transport: Transport)
      returns (ghost end: SyncRun, ending: Ending, summary: Summary)
      requires Paired(View()) && transport.Valid()
      modifies this`items, this`meta, transport, transport.service.repo
      ensures transport.Valid() && Paired(View())
      ensures SyncsTo(live[..], old(View()), old(transport.Rows()), old(transport.weather), end)
      ensures end == SyncRun(ending, View(), transport.Rows(), summary)
    {
      ghost var r, rows, weather := View(), transport.Rows(), transport.weather;
      var pushed, conflicts;
      ghost var order;
      ending, pushed, conflicts, order := PushEdits(live, transport);
      ghost var run := PushRun(ending, View(), transport.Rows(), pushed, conflicts, transport.weather);
      if !ending.Done? {
        summary := Summary(pushed, 0, conflicts);
        end := Finish(live[..], run, []);
        FailedPushEnds(live[..], r, rows, weather, order, end);
        return;
      }
      var pulled;
      ghost var list;
      ending, pulled, list := PullAndMerge(live, transport, pushed, conflicts);
      summary := Summary(pushed, pulled, conflicts);
      end := Finish(live[..], run, list);
      PullEnds(live[..], r, rows, weather, order, list, end);
    }

    /**
     * Push every edited item, then pull and merge. What it does to the device
     * and to the server's rows is a possible end of a sync in this weather;
     * only a sync that reaches its end is written to disk.
     */
    method Sync() returns (result: Result<Summary>, ghost end: SyncRun)
      requires Paired(View())
      requires transport != null ==> transport.Valid()
      modifies this`items, this`meta, store, transport
      modifies if transport != null then {transport.service.repo} else {}
      ensures key == null || transport == null ==>
                && result == Failed(if key == null then Locked else Offline)
                && View() == old(View()) && store.raw == old(store.raw)
                && (transport != null ==> transport.Valid() && transport.Rows() == old(transport.Rows()))
      ensures key != null && transport != null ==>
                && transport.Valid() && Paired(View())
                && SyncsTo(key[..], old(View()), old(transport.Rows()), old(transport.weather), end)
                && View() == end.replica && transport.Rows() == end.rows
                && result == (if end.ending.Done? then Success(end.summary) else Failed(Interrupted(end.ending)))
                && (end.ending.Done? ==> Stored(store.raw, key[..], View()))
                && (!end.ending.Done? ==> store.raw == old(store.raw))
    {
      end := SyncRun(Done, View(), map[], Summary(0, 0, 0));
      if key == null {
        return Failed(Locked), end;
      }
      if transport == null {
        return Failed(Offline), end;
      }
      var summary, ending;
      end, summary, ending := SyncOver(key, transport);
      return (if ending.Done? then Success(summary) else Failed(Interrupted(ending))), end;
    }

    /** Write the whole state as one blob under the live key. */
    method Persist(live: array<Byte>)
      modifies store
      ensures Stored(store.raw, live[..], View())
    {
      var ids := KeysInOrder(items.Keys);
      var metaIds := KeysInOrder(meta.Keys);
      var saved := Persisted(ItemsOf(Replica(items, meta), ids), MetaOf(Replica(items, meta), metaIds));
      store.raw := Some(Encrypt(live[..], saved));
    }
  }

  method ZeroKey(key: array<Byte>)
    modifies key
    ensures forall i :: 0 <= i < key.Length ==> key[i] == 0
  {
    for i := 0 to key.Length
      invariant forall j :: 0 <= j < i ==> key[j] == 0
    {
      key[i] := 0;
    }
  }

  lemma SomeListing(rows: Replicas.Rows) returns (list: seq<RemoteItem<Cipher>>)
    ensures Enumerates(list, rows)
  {
    var ids := SomeOrder(rows.Keys);
    list := seq(|ids|, i requires 0 <= i < |ids| => RemoteItem(ids[i], rows[ids[i]]));
    forall id | id in rows ensures exists i :: 0 <= i < |list| && list[i].id == id {
      var i :| 0 <= i < |ids| && ids[i] == id;
      assert list[i].id == id;
    }
  }
}
