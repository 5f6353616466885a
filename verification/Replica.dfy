/**
 * One device's copy of the vault: decrypted items and their sync metadata,
 * and how each answer from the server changes them.
 */
module Replicas {
  import opened Common
  import opened Crypto
  import opened SyncRules
  import opened VaultService

  /** A vault item: its id, and everything else it holds as one opaque text. */
  datatype VaultItem = VaultItem(id: Id, body: string)

  datatype Meta = Meta(version: int, dirty: bool)

  datatype Replica = Replica(items: map<Id, VaultItem>, meta: map<Id, Meta>)

  type Cipher = Blob<VaultItem>
  type Rows = map<Id, Row<Cipher>>

  const EMPTY := Replica(map[], map[])

  /** Items and metadata cover the same ids. */
  ghost predicate Paired(r: Replica) {
    r.items.Keys == r.meta.Keys
  }

  /** Each item is filed under its own id. */
  ghost predicate Filed(r: Replica) {
    forall id :: id in r.items ==> r.items[id].id == id
  }

  function Add(r: Replica, item: VaultItem): Replica {
    Replica(r.items[item.id := item], r.meta[item.id := Meta(0, true)])
  }

  function Edit(r: Replica, id: Id, body: string): Replica
    requires id in r.meta
  {
    Replica(r.items[id := VaultItem(id, body)], r.meta[id := Meta(r.meta[id].version, true)])
  }

  /**
   * `after` holds `item`, to be pushed as the successor of version `version`,
   * and is like `before` everywhere else.
   */
  ghost predicate Marked(before: Replica, after: Replica, item: VaultItem, version: int) {
    && after.items.Keys == before.items.Keys + {item.id} && after.meta.Keys == before.meta.Keys + {item.id}
    && after.items[item.id] == item && after.meta[item.id].version == version && after.meta[item.id].dirty
    && (forall other :: other in before.items && other != item.id ==> after.items[other] == before.items[other])
    && (forall other :: other in before.meta && other != item.id ==> after.meta[other] == before.meta[other])
  }

  /** Take the server's copy of an item. */
  function Adopt(r: Replica, id: Id, item: VaultItem, version: int): Replica {
    Replica(r.items[id := item], r.meta[id := Meta(version, false)])
  }

  /** One replica laid over another. */
  function Overlay(r: Replica, over: Replica): Replica {
    Replica(r.items + over.items, r.meta + over.meta)
  }

  /** Every item marked for the next sync. */
  function Rekeyed(r: Replica): Replica {
    r.(meta := map id | id in r.meta :: Meta(r.meta[id].version, true))
  }

  /** The version a push is based on: none for an item the server never answered for. */
  function Base(m: Meta): Option<int> {
    if m.version == 0 then None else Some(m.version)
  }

  /** The replica after the answer to a push; `None` when the server's copy does not decrypt. */
  function AfterPush(r: Replica, key: Bytes, id: Id, outcome: PushOutcome<Cipher>): Option<Replica> {
    match outcome
    case Accepted(version) => Some(r.(meta := r.meta[id := Meta(version, false)]))
    case Conflict(_, None) => Some(r)
    case Conflict(_, Some(row)) =>
      match Decrypt(key, row.ciphertext)
      case None => None
      case Some(item) => Some(Adopt(r, id, item, row.version))
  }

  /** A merge that stops at the first item that does not decrypt. */
  datatype Merge = Merge(ok: bool, replica: Replica, pulled: nat)

  /** The replica needs this row: it has no such item, or an older version of it. */
  predicate IsNews(r: Replica, item: RemoteItem<Cipher>) {
    item.id !in r.meta || item.row.version > r.meta[item.id].version
  }

  function MergePulled(r: Replica, key: Bytes, list: seq<RemoteItem<Cipher>>): Merge
    decreases |list|
  {
    if list == [] then Merge(true, r, 0)
    else if !IsNews(r, list[0]) then MergePulled(r, key, list[1..])
    else
      match Decrypt(key, list[0].row.ciphertext)
      case None => Merge(false, r, 0)
      case Some(item) =>
        var rest := MergePulled(Adopt(r, list[0].id, item, list[0].row.version), key, list[1..]);
        rest.(pulled := rest.pulled + 1)
  }

  lemma {:induction false} MergeKeepsPaired(r: Replica, key: Bytes, list: seq<RemoteItem<Cipher>>)
    requires Paired(r)
    ensures Paired(MergePulled(r, key, list).replica)
    decreases |list|
  {
    if list != [] {
      if !IsNews(r, list[0]) {
        MergeKeepsPaired(r, key, list[1..]);
      } else if list[0].row.ciphertext.key == key {
        MergeKeepsPaired(Adopt(r, list[0].id, list[0].row.ciphertext.plain, list[0].row.version), key, list[1..]);
      }
    }
  }

  // -------- the persisted form --------

  datatype MetaRow = MetaRow(id: Id, version: int, dirty: bool)

  /** The plaintext of the one on-disk blob. */
  datatype Persisted = Persisted(items: seq<VaultItem>, meta: seq<MetaRow>)

  function LoadItems(items: map<Id, VaultItem>, list: seq<VaultItem>): map<Id, VaultItem>
    decreases |list|
  {
    if list == [] then items else LoadItems(items[list[0].id := list[0]], list[1..])
  }

  function LoadMeta(meta: map<Id, Meta>, list: seq<MetaRow>): map<Id, Meta>
    decreases |list|
  {
    if list == [] then meta else LoadMeta(meta[list[0].id := Meta(list[0].version, list[0].dirty)], list[1..])
  }

  /** What unlocking does to the maps in memory: the persisted entries are laid over them. */
  function Load(r: Replica, saved: Persisted): Replica {
    Replica(LoadItems(r.items, saved.items), LoadMeta(r.meta, saved.meta))
  }

  lemma {:induction false} LoadItemsAppend(items: map<Id, VaultItem>, list: seq<VaultItem>, item: VaultItem)
    ensures LoadItems(items, list + [item]) == LoadItems(items, list)[item.id := item]
    decreases |list|
  {
    if list != [] {
      assert (list + [item])[1..] == list[1..] + [item];
      LoadItemsAppend(items[list[0].id := list[0]], list[1..], item);
    }
  }

  lemma {:induction false} LoadMetaAppend(meta: map<Id, Meta>, list: seq<MetaRow>, row: MetaRow)
    ensures LoadMeta(meta, list + [row]) == LoadMeta(meta, list)[row.id := Meta(row.version, row.dirty)]
    decreases |list|
  {
    if list != [] {
      assert (list + [row])[1..] == list[1..] + [row];
      LoadMetaAppend(meta[list[0].id := Meta(list[0].version, list[0].dirty)], list[1..], row);
    }
  }

  /** `ids` names each key once. */
  ghost predicate Lists(ids: seq<Id>, keys: set<Id>) {
    && (forall i, j :: 0 <= i < j < |ids| ==> ids[i] != ids[j])
    && (forall i :: 0 <= i < |ids| ==> ids[i] in keys)
    && (forall id :: id in keys ==> exists i :: 0 <= i < |ids| && ids[i] == id)
  }

  function ItemsOf(r: Replica, ids: seq<Id>): seq<VaultItem>
    requires forall i :: 0 <= i < |ids| ==> ids[i] in r.items
  {
    seq(|ids|, i requires 0 <= i < |ids| => r.items[ids[i]])
  }

  function MetaOf(r: Replica, ids: seq<Id>): seq<MetaRow>
    requires forall i :: 0 <= i < |ids| ==> ids[i] in r.meta
  {
    seq(|ids|, i requires 0 <= i < |ids| => MetaRow(ids[i], r.meta[ids[i]].version, r.meta[ids[i]].dirty))
  }

  /** `saved` writes out the whole replica, in any order. */
  ghost predicate Saves(saved: Persisted, r: Replica) {
    exists ids: seq<Id>, metaIds: seq<Id> ::
      && Lists(ids, r.items.Keys) && Lists(metaIds, r.meta.Keys)
      && saved == Persisted(ItemsOf(r, ids), MetaOf(r, metaIds))
  }

  lemma {:induction false} LoadedItemsAreFiled(items: map<Id, VaultItem>, list: seq<VaultItem>)
    requires forall id :: id in items ==> items[id].id == id
    ensures forall id :: id in LoadItems(items, list) ==> LoadItems(items, list)[id].id == id
    decreases |list|
  {
    if list != [] {
      LoadedItemsAreFiled(items[list[0].id := list[0]], list[1..]);
    }
  }

  lemma {:induction false} LoadItemsOf(r: Replica, ids: seq<Id>)
    requires Filed(r) && forall i :: 0 <= i < |ids| ==> ids[i] in r.items
    ensures LoadItems(map[], ItemsOf(r, ids)) == map id | id in ids :: r.items[id]
    decreases |ids|
  {
    if ids != [] {
      var front := ids[..|ids| - 1];
      var last := ids[|ids| - 1];
      LoadItemsOf(r, front);
      assert ItemsOf(r, ids) == ItemsOf(r, front) + [r.items[last]];
      LoadItemsAppend(map[], ItemsOf(r, front), r.items[last]);
      assert ids == front + [last];
    }
  }

  lemma {:induction false} LoadMetaOf(r: Replica, ids: seq<Id>)
    requires forall i :: 0 <= i < |ids| ==> ids[i] in r.meta
    ensures LoadMeta(map[], MetaOf(r, ids)) == map id | id in ids :: r.meta[id]
    decreases |ids|
  {
    if ids != [] {
      var front := ids[..|ids| - 1];
      var last := ids[|ids| - 1];
      LoadMetaOf(r, front);
      assert MetaOf(r, ids) == MetaOf(r, front) + [MetaRow(last, r.meta[last].version, r.meta[last].dirty)];
      LoadMetaAppend(map[], MetaOf(r, front), MetaRow(last, r.meta[last].version, r.meta[last].dirty));
      assert ids == front + [last];
    }
  }

  /**
   * Saving and reloading gives a replica back exactly when each of its items
   * is filed under its own id: the blob's item list does not say where an item was filed.
   */
  lemma ReloadRestores(r: Replica, saved: Persisted)
    requires Saves(saved, r)
    ensures Load(EMPTY, saved) == r <==> Filed(r)
  {
    var ids: seq<Id>, metaIds: seq<Id> :| Lists(ids, r.items.Keys) && Lists(metaIds, r.meta.Keys)
      && saved == Persisted(ItemsOf(r, ids), MetaOf(r, metaIds));
    LoadedItemsAreFiled(map[], saved.items);
    LoadMetaOf(r, metaIds);
    assert (map id | id in metaIds :: r.meta[id]) == r.meta;
    if Filed(r) {
      LoadItemsOf(r, ids);
      assert (map id | id in ids :: r.items[id]) == r.items;
    }
  }

  lemma {:induction false} LoadItemsOver(items: map<Id, VaultItem>, list: seq<VaultItem>)
    ensures LoadItems(items, list) == items + LoadItems(map[], list)
    decreases |list|
  {
    if list != [] {
      var front, last := list[..|list| - 1], list[|list| - 1];
      assert list == front + [last];
      LoadItemsAppend(items, front, last);
      LoadItemsAppend(map[], front, last);
      LoadItemsOver(items, front);
    }
  }

  lemma {:induction false} LoadMetaOver(meta: map<Id, Meta>, list: seq<MetaRow>)
    ensures LoadMeta(meta, list) == meta + LoadMeta(map[], list)
    decreases |list|
  {
    if list != [] {
      var front, last := list[..|list| - 1], list[|list| - 1];
      assert list == front + [last];
      LoadMetaAppend(meta, front, last);
      LoadMetaAppend(map[], front, last);
      LoadMetaOver(meta, front);
    }
  }

  /**
   * Reloading lays the saved replica over whatever is in memory, exactly when
   * its items are filed under their own ids.
   */
  lemma ReloadOverlaysExactly(disk: Replica, saved: Persisted)
    requires Saves(saved, disk)
    ensures Filed(disk) <==> forall r :: Load(r, saved) == Overlay(r, disk)
  {
    ReloadRestores(disk, saved);
    forall r ensures Load(r, saved) == Overlay(r, Load(EMPTY, saved)) {
      LoadItemsOver(r.items, saved.items);
      LoadMetaOver(r.meta, saved.meta);
    }
    if forall r :: Load(r, saved) == Overlay(r, disk) {
      assert Load(EMPTY, saved) == Overlay(EMPTY, disk) == disk;
    }
  }

  /** Item by item: what is on disk replaces what is in memory, and everything else in memory stays. */
  lemma ReloadTakesTheDisk(r: Replica, disk: Replica, saved: Persisted, id: Id)
    requires Saves(saved, disk) && Filed(disk)
    ensures var after := Load(r, saved);
            && (id in disk.items ==> id in after.items && after.items[id] == disk.items[id])
            && (id in disk.meta ==> id in after.meta && after.meta[id] == disk.meta[id])
            && (id !in disk.items ==> (id in after.items <==> id in r.items))
            && (id !in disk.meta ==> (id in after.meta <==> id in r.meta))
            && (id !in disk.items && id in r.items ==> after.items[id] == r.items[id])
            && (id !in disk.meta && id in r.meta ==> after.meta[id] == r.meta[id])
  {
    ReloadOverlaysExactly(disk, saved);
    assert Load(r, saved) == Overlay(r, disk);
  }
}
