/**
 * A sync that nothing disturbs, judged one item at a time: an independent
 * account of where each item and its server row end up, and what follows.
 */
module QuietSync {
  import opened Common
  import opened Crypto
  import opened SyncRules
  import opened VaultService
  import opened Replicas
  import opened SyncSession

  datatype Entry = Entry(item: VaultItem, meta: Meta)

  function EntryAt(r: Replica, id: Id): Option<Entry>
    requires Paired(r)
  {
    if id in r.meta then Some(Entry(r.items[id], r.meta[id])) else None
  }

  function RowAt(rows: Rows, id: Id): Option<Row<Cipher>> {
    if id in rows then Some(rows[id]) else None
  }

  /** An item on one device and on the server. */
  datatype Both = Both(entry: Option<Entry>, row: Option<Row<Cipher>>)

  /** The edited entry meets a server row it was not based on. */
  predicate Clashes(e: Entry, row: Option<Row<Cipher>>) {
    e.meta.dirty && row.Some? && Base(e.meta) != Some(row.value.version)
  }

  /** The edited entry has a base, and the server has nothing. */
  predicate Orphaned(e: Entry, row: Option<Row<Cipher>>) {
    e.meta.dirty && row.None? && Base(e.meta).Some?
  }

  /** If the item clashes, the server's copy can be read. */
  predicate ClashReadable(key: Bytes, b: Both) {
    b.entry.Some? && Clashes(b.entry.value, b.row) ==> b.row.value.ciphertext.key == key
  }

  /** Where one item must be after the push loop. */
  function AfterPushes(key: Bytes, b: Both): Both {
    match b.entry
    case None => b
    case Some(e) =>
      if !e.meta.dirty || Orphaned(e, b.row) then b
      else if Clashes(e, b.row) then
        Both(Some(Entry(b.row.value.ciphertext.plain, Meta(b.row.value.version, false))), b.row)
      else
        var version := if b.row.Some? then b.row.value.version + 1 else 1;
        Both(Some(Entry(e.item, Meta(version, false))), Some(Row(Sealed(key, e.item), version)))
  }

  /** Where one item must be after the pull. */
  function AfterPull(b: Both): Both {
    if b.row.Some? && (b.entry.None? || b.row.value.version > b.entry.value.meta.version)
    then Both(Some(Entry(b.row.value.ciphertext.plain, Meta(b.row.value.version, false))), b.row)
    else b
  }

  /** Where one item must be after a quiet sync. */
  function Settled(key: Bytes, b: Both): Both {
    AfterPull(AfterPushes(key, b))
  }

  function At(r: Replica, rows: Rows, id: Id): Both
    requires Paired(r)
  {
    Both(EntryAt(r, id), RowAt(rows, id))
  }

  /** The device must read the server's row of this item. */
  predicate MustRead(b: Both) {
    && b.row.Some?
    && (b.entry.None? || Clashes(b.entry.value, b.row)
        || (!b.entry.value.meta.dirty && b.row.value.version > b.entry.value.meta.version))
  }

  /** Every row the sync has to read opens with the key. */
  ghost predicate Readable(key: Bytes, r: Replica, rows: Rows)
    requires Paired(r)
  {
    forall id :: id in rows && MustRead(At(r, rows, id)) ==> rows[id].ciphertext.key == key
  }

  // -------- the push loop --------

  lemma PushOneQuiet(key: Bytes, run: PushRun, id: Id)
    requires Paired(run.replica) && id in run.replica.meta && run.replica.meta[id].dirty
    requires run.ending.Done? && run.weather == []
    ensures var next := PushOne(key, run, id);
            var b := At(run.replica, run.rows, id);
            && Paired(next.replica) && next.weather == []
            && (next.ending.Done? <==> ClashReadable(key, b))
            && (!next.ending.Done? ==> next.ending.DecryptFailed?)
            && (next.ending.Done? ==>
                  && At(next.replica, next.rows, id) == AfterPushes(key, b)
                  && next.pushed + next.conflicts == run.pushed + run.conflicts + 1
                  && next.conflicts == run.conflicts +
                     (if Clashes(b.entry.value, b.row) || Orphaned(b.entry.value, b.row) then 1 else 0))
            && (forall other :: other != id ==> At(next.replica, next.rows, other) == At(run.replica, run.rows, other))
  {
  }

  /** The server will refuse this entry's push. */
  predicate IsRefused(b: Both) {
    b.entry.Some? && (Clashes(b.entry.value, b.row) || Orphaned(b.entry.value, b.row))
  }

  /** How many of the items in `order` cannot be pushed as they are. */
  function Refused(r: Replica, rows: Rows, order: seq<Id>): nat
    requires Paired(r)
    decreases |order|
  {
    if order == [] then 0
    else (if IsRefused(At(r, rows, order[0])) then 1 else 0) + Refused(r, rows, order[1..])
  }

  lemma {:induction false} RefusedElsewhere(r: Replica, rows: Rows, r': Replica, rows': Rows, order: seq<Id>)
    requires Paired(r) && Paired(r')
    requires forall i :: 0 <= i < |order| ==> At(r, rows, order[i]) == At(r', rows', order[i])
    ensures Refused(r, rows, order) == Refused(r', rows', order)
    decreases |order|
  {
    if order != [] {
      forall i | 0 <= i < |order[1..]| ensures At(r, rows, order[1..][i]) == At(r', rows', order[1..][i]) {
        assert order[1..][i] == order[i + 1];
      }
      RefusedElsewhere(r, rows, r', rows', order[1..]);
    }
  }

  /** A turn for the first item leaves the others of the order as they were. */
  lemma TailUntouched(r: Replica, rows: Rows, r': Replica, rows': Rows, order: seq<Id>)
    requires Paired(r) && Paired(r') && order != []
    requires forall i, j :: 0 <= i < j < |order| ==> order[i] != order[j]
    requires forall i :: 0 <= i < |order| ==> order[i] in r.meta && r.meta[order[i]].dirty
    requires forall other :: other != order[0] ==> At(r', rows', other) == At(r, rows, other)
    ensures forall i, j :: 0 <= i < j < |order[1..]| ==> order[1..][i] != order[1..][j]
    ensures forall i :: 0 <= i < |order[1..]| ==>
              && order[1..][i] != order[0]
              && At(r', rows', order[1..][i]) == At(r, rows, order[1..][i])
              && order[1..][i] in r'.meta && r'.meta[order[1..][i]].dirty
  {
    forall i | 0 <= i < |order[1..]|
      ensures order[1..][i] != order[0]
      ensures At(r', rows', order[1..][i]) == At(r, rows, order[1..][i])
      ensures order[1..][i] in r'.meta && r'.meta[order[1..][i]].dirty
    {
      assert order[1..][i] == order[i + 1];
      assert At(r', rows', order[i + 1]) == At(r, rows, order[i + 1]);
    }
  }

  /**
   * How a quiet push loop over `order` ends: at the first row it cannot read, or
   * with every item as its own push leaves it.
   */
  ghost predicate QuietEnd(key: Bytes, run: PushRun, order: seq<Id>, end: PushRun)
    requires Paired(run.replica)
  {
    && Paired(end.replica) && end.weather == []
    && (end.ending.Done? <==> forall i :: 0 <= i < |order| ==> ClashReadable(key, At(run.replica, run.rows, order[i])))
    && (!end.ending.Done? ==> end.ending.DecryptFailed?)
    && (end.ending.Done? ==>
          && end.pushed + end.conflicts == run.pushed + run.conflicts + |order|
          && end.conflicts == run.conflicts + Refused(run.replica, run.rows, order)
          && forall id :: At(end.replica, end.rows, id) ==
                          if id in order then AfterPushes(key, At(run.replica, run.rows, id))
                            else At(run.replica, run.rows, id))
  }

  lemma {:induction false} PushAllQuiet(key: Bytes, run: PushRun, order: seq<Id>)
    requires Paired(run.replica) && run.ending.Done? && run.weather == []
    requires forall i, j :: 0 <= i < j < |order| ==> order[i] != order[j]
    requires forall i :: 0 <= i < |order| ==> order[i] in run.replica.meta && run.replica.meta[order[i]].dirty
    ensures QuietEnd(key, run, order, PushAll(key, run, order))
    decreases |order|
  {
    if order != [] {
      PushOneQuiet(key, run, order[0]);
      var next := PushOne(key, run, order[0]);
      if next.ending.Done? {
        TailUntouched(run.replica, run.rows, next.replica, next.rows, order);
        PushAllQuiet(key, next, order[1..]);
        QuietEndExtends(key, run, next, order, PushAll(key, next, order[1..]));
      } else {
        assert !ClashReadable(key, At(run.replica, run.rows, order[0]));
      }
    }
  }

  /** A turn for the first item, and then a quiet end for the others. */
  lemma QuietEndExtends(key: Bytes, run: PushRun, next: PushRun, order: seq<Id>, end: PushRun)
    requires Paired(run.replica) && Paired(next.replica) && order != []
    requires forall i :: 0 <= i < |order[1..]| ==>
               order[1..][i] != order[0] && At(next.replica, next.rows, order[1..][i]) ==
                 At(run.replica, run.rows, order[1..][i])
    requires forall other :: other != order[0] ==>
               At(next.replica, next.rows, other) == At(run.replica, run.rows, other)
    requires ClashReadable(key, At(run.replica, run.rows, order[0]))
    requires At(next.replica, next.rows, order[0]) == AfterPushes(key, At(run.replica, run.rows, order[0]))
    requires next.pushed + next.conflicts == run.pushed + run.conflicts + 1
    requires next.conflicts == run.conflicts + (if IsRefused(At(run.replica, run.rows, order[0])) then 1 else 0)
    requires QuietEnd(key, next, order[1..], end)
    ensures QuietEnd(key, run, order, end)
  {
    RefusedElsewhere(next.replica, next.rows, run.replica, run.rows, order[1..]);
    assert order == [order[0]] + order[1..];
    forall i | 0 <= i < |order|
      ensures i > 0 ==> At(next.replica, next.rows, order[i]) == At(run.replica, run.rows, order[i])
    {
      if i > 0 {
        assert order[i] == order[1..][i - 1];
      }
    }
  }

  // -------- the pull --------

  /** No two entries of a listing are about the same id. */
  ghost predicate DistinctIds(list: seq<RemoteItem<Cipher>>) {
    forall i, j :: 0 <= i < j < |list| ==> list[i].id != list[j].id
  }

  /** The replica after the first entry of a listing, when that entry can be read. */
  function AfterFirst(r: Replica, list: seq<RemoteItem<Cipher>>): Replica
    requires list != []
  {
    if IsNews(r, list[0]) then Adopt(r, list[0].id, list[0].row.ciphertext.plain, list[0].row.version) else r
  }

  lemma AfterFirstElsewhere(r: Replica, list: seq<RemoteItem<Cipher>>)
    requires Paired(r) && DistinctIds(list) && list != []
    ensures Paired(AfterFirst(r, list)) && DistinctIds(list[1..])
    ensures EntryAt(AfterFirst(r, list), list[0].id) == AfterPull(Both(EntryAt(r, list[0].id), Some(list[0].row))).entry
    ensures forall id :: id != list[0].id ==> EntryAt(AfterFirst(r, list), id) == EntryAt(r, id)
    ensures forall i :: 0 <= i < |list[1..]| ==>
              && list[1..][i] == list[i + 1] && list[1..][i].id != list[0].id
              && IsNews(AfterFirst(r, list), list[1..][i]) == IsNews(r, list[i + 1])
  {
  }

  /** The pull succeeds exactly when each row it needs can be read. */
  lemma {:induction false} MergeSucceeds(r: Replica, key: Bytes, list: seq<RemoteItem<Cipher>>)
    requires Paired(r) && DistinctIds(list)
    ensures MergePulled(r, key, list).ok <==>
            forall i :: 0 <= i < |list| && IsNews(r, list[i]) ==> list[i].row.ciphertext.key == key
    decreases |list|
  {
    if list != [] {
      if IsNews(r, list[0]) && list[0].row.ciphertext.key != key {
        assert !MergePulled(r, key, list).ok;
      } else {
        AfterFirstElsewhere(r, list);
        var next := AfterFirst(r, list);
        MergeSucceeds(next, key, list[1..]);
        assert MergePulled(r, key, list).ok == MergePulled(next, key, list[1..]).ok;
        if MergePulled(r, key, list).ok {
          forall i | 0 <= i < |list| && IsNews(r, list[i]) ensures list[i].row.ciphertext.key == key {
            if i > 0 { assert IsNews(next, list[1..][i - 1]); }
          }
        }
      }
    }
  }

  /** The ids in a listing that the replica did not hold, or held at a lower version. */
  function NewIn(r: Replica, list: seq<RemoteItem<Cipher>>): set<Id> {
    set i | 0 <= i < |list| && (list[i].id in r.meta ==> list[i].row.version > r.meta[list[i].id].version) :: list[i].id
  }

  lemma NewInTail(r: Replica, list: seq<RemoteItem<Cipher>>)
    requires Paired(r) && DistinctIds(list) && list != []
    ensures var first, rest := list[0].id, NewIn(AfterFirst(r, list), list[1..]);
            first !in rest && NewIn(r, list) == if IsNews(r, list[0]) then rest + {first} else rest
  {
    AfterFirstElsewhere(r, list);
    var first, rest := list[0].id, NewIn(AfterFirst(r, list), list[1..]);
    forall id | id in NewIn(r, list) && id != first ensures id in rest {
      var i :| 0 <= i < |list| && list[i].id == id && IsNews(r, list[i]);
      assert list[1..][i - 1] == list[i];
    }
    forall id | id in rest ensures id != first && id in NewIn(r, list) {
      var i :| 0 <= i < |list[1..]| && list[1..][i].id == id && IsNews(AfterFirst(r, list), list[1..][i]);
      assert list[i + 1] == list[1..][i];
    }
    if IsNews(r, list[0]) {
      assert list[0].id in NewIn(r, list);
    }
  }

  /** A merge that reaches the end of its listing counts each listed item that was new to the replica once. */
  lemma {:induction false} PulledAreNew(r: Replica, key: Bytes, list: seq<RemoteItem<Cipher>>)
    requires Paired(r) && DistinctIds(list) && MergePulled(r, key, list).ok
    ensures MergePulled(r, key, list).pulled == |NewIn(r, list)|
    decreases |list|
  {
    if list == [] {
      assert NewIn(r, list) == {};
    } else {
      AfterFirstElsewhere(r, list);
      NewInTail(r, list);
      PulledAreNew(AfterFirst(r, list), key, list[1..]);
    }
  }

  lemma {:induction false} MergeElsewhere(r: Replica, key: Bytes, list: seq<RemoteItem<Cipher>>, id: Id)
    requires Paired(r) && DistinctIds(list) && forall i :: 0 <= i < |list| ==> list[i].id != id
    ensures Paired(MergePulled(r, key, list).replica)
    ensures EntryAt(MergePulled(r, key, list).replica, id) == EntryAt(r, id)
    decreases |list|
  {
    if list != [] && !(IsNews(r, list[0]) && list[0].row.ciphertext.key != key) {
      AfterFirstElsewhere(r, list);
      MergeElsewhere(AfterFirst(r, list), key, list[1..], id);
    }
  }

  lemma {:induction false} MergeAt(r: Replica, key: Bytes, list: seq<RemoteItem<Cipher>>, i: nat)
    requires Paired(r) && DistinctIds(list) && i < |list| && MergePulled(r, key, list).ok
    ensures Paired(MergePulled(r, key, list).replica)
    ensures EntryAt(MergePulled(r, key, list).replica, list[i].id) ==
            AfterPull(Both(EntryAt(r, list[i].id), Some(list[i].row))).entry
    decreases |list|
  {
    AfterFirstElsewhere(r, list);
    var next := AfterFirst(r, list);
    assert MergePulled(r, key, list).replica == MergePulled(next, key, list[1..]).replica;
    if i == 0 {
      MergeElsewhere(next, key, list[1..], list[0].id);
    } else {
      MergeAt(next, key, list[1..], i - 1);
    }
  }

  // -------- the whole sync --------

  lemma {:induction false} LengthOfListing(order: seq<Id>, ids: set<Id>)
    requires forall i, j :: 0 <= i < j < |order| ==> order[i] != order[j]
    requires forall id :: id in ids <==> id in order
    ensures |order| == |ids|
    decreases |order|
  {
    if order == [] {
      assert ids == {};
    } else {
      assert order == [order[0]] + order[1..];
      LengthOfListing(order[1..], ids - {order[0]});
    }
  }

  function RefusedIn(r: Replica, rows: Rows, order: seq<Id>): set<Id>
    requires Paired(r)
  {
    set id | id in order && IsRefused(At(r, rows, id))
  }

  lemma {:induction false} RefusedIsCount(r: Replica, rows: Rows, order: seq<Id>)
    requires Paired(r)
    requires forall i, j :: 0 <= i < j < |order| ==> order[i] != order[j]
    ensures Refused(r, rows, order) == |RefusedIn(r, rows, order)|
    decreases |order|
  {
    if order == [] {
      assert RefusedIn(r, rows, order) == {};
    } else {
      var id, rest := order[0], order[1..];
      RefusedIsCount(r, rows, rest);
      assert order == [id] + rest;
      assert id !in rest;
      if IsRefused(At(r, rows, id)) {
        assert RefusedIn(r, rows, order) == RefusedIn(r, rows, rest) + {id};
      } else {
        assert RefusedIn(r, rows, order) == RefusedIn(r, rows, rest);
      }
    }
  }

  function Edited(r: Replica): set<Id> {
    set id | id in r.meta && r.meta[id].dirty
  }

  /** The edits that a sync of `r` against `rows` will see refused. */
  function RefusedEdits(r: Replica, rows: Rows): set<Id>
    requires Paired(r)
  {
    set id | id in Edited(r) && IsRefused(At(r, rows, id))
  }

  /** After the push loop: every item is where the account says, and nothing else has happened. */
  ghost predicate Pushed(key: Bytes, r: Replica, rows: Rows, run: PushRun)
    requires Paired(r)
  {
    && run.ending.Done? && run.weather == [] && Paired(run.replica)
    && (forall id :: ClashReadable(key, At(r, rows, id)))
    && (forall id :: At(run.replica, run.rows, id) == AfterPushes(key, At(r, rows, id)))
  }

  /** What the pull finds new is what the sync had to read and did not already meet as a clash. */
  lemma NewsIsUnread(key: Bytes, r: Replica, rows: Rows, run: PushRun, item: RemoteItem<Cipher>)
    requires Paired(r) && Pushed(key, r, rows, run)
    requires item.id in run.rows && run.rows[item.id] == item.row
    ensures IsNews(run.replica, item) ==> MustRead(At(r, rows, item.id)) && rows[item.id] == item.row
    ensures MustRead(At(r, rows, item.id)) ==> ClashReadable(key, At(r, rows, item.id)) && rows[item.id] == item.row
    ensures MustRead(At(r, rows, item.id)) && !IsNews(run.replica, item) ==> rows[item.id].ciphertext.key == key
  {
    assert At(run.replica, run.rows, item.id) == AfterPushes(key, At(r, rows, item.id));
    assert ClashReadable(key, At(r, rows, item.id));
  }

  lemma PullSucceeds(key: Bytes, r: Replica, rows: Rows, run: PushRun, list: seq<RemoteItem<Cipher>>)
    requires Paired(r) && Pushed(key, r, rows, run) && Enumerates(list, run.rows)
    ensures MergePulled(run.replica, key, list).ok <==> Readable(key, r, rows)
  {
    MergeSucceeds(run.replica, key, list);
    forall i | 0 <= i < |list|
      ensures IsNews(run.replica, list[i]) ==>
                MustRead(At(r, rows, list[i].id)) && list[i].id in rows && rows[list[i].id] == list[i].row
      ensures MustRead(At(r, rows, list[i].id)) && !IsNews(run.replica, list[i]) ==>
              rows[list[i].id].ciphertext.key == key
    {
      NewsIsUnread(key, r, rows, run, list[i]);
    }
    if MergePulled(run.replica, key, list).ok {
      forall id | id in rows && MustRead(At(r, rows, id)) ensures rows[id].ciphertext.key == key {
        assert At(run.replica, run.rows, id) == AfterPushes(key, At(r, rows, id));
        assert id in run.rows;
        var i :| 0 <= i < |list| && list[i].id == id;
        NewsIsUnread(key, r, rows, run, list[i]);
      }
    }
  }

  /** The rows that a device has never met, or met at a lower version and not edited since. */
  function Unmet(r: Replica, rows: Rows): set<Id> {
    set id | id in rows && (id in r.meta ==> !r.meta[id].dirty && rows[id].version > r.meta[id].version)
  }

  lemma PullCounts(key: Bytes, r: Replica, rows: Rows, run: PushRun, list: seq<RemoteItem<Cipher>>)
    requires Paired(r) && Pushed(key, r, rows, run) && Enumerates(list, run.rows)
    requires MergePulled(run.replica, key, list).ok
    ensures MergePulled(run.replica, key, list).pulled == |Unmet(r, rows)|
  {
    PulledAreNew(run.replica, key, list);
    forall id ensures id in NewIn(run.replica, list) <==> id in Unmet(r, rows) {
      assert At(run.replica, run.rows, id) == AfterPushes(key, At(r, rows, id));
      if id in run.rows {
        var i :| 0 <= i < |list| && list[i].id == id;
      }
    }
    assert NewIn(run.replica, list) == Unmet(r, rows);
  }

  lemma PullPlaces(key: Bytes, r: Replica, rows: Rows, run: PushRun, list: seq<RemoteItem<Cipher>>, id: Id)
    requires Paired(r) && Pushed(key, r, rows, run) && Enumerates(list, run.rows)
    requires MergePulled(run.replica, key, list).ok
    ensures Paired(MergePulled(run.replica, key, list).replica)
    ensures At(MergePulled(run.replica, key, list).replica, run.rows, id) == Settled(key, At(r, rows, id))
  {
    MergeKeepsPaired(run.replica, key, list);
    assert At(run.replica, run.rows, id) == AfterPushes(key, At(r, rows, id));
    if id in run.rows {
      var i :| 0 <= i < |list| && list[i].id == id;
      MergeAt(run.replica, key, list, i);
    } else {
      MergeElsewhere(run.replica, key, list, id);
    }
  }

  /**
   * A quiet sync succeeds exactly when each row it has to read opens with the
   * key. It then leaves every item, on the device and on the server, where the
   * item-by-item account says, its counts of pushes and conflicts add up to the
   * edits it began with, and its count of pulls is that of the rows not met before.
   */
  lemma QuietSyncSettles(key: Bytes, r: Replica, rows: Rows, end: SyncRun)
    requires Paired(r) && SyncsTo(key, r, rows, [], end)
    ensures Paired(end.replica)
    ensures end.ending.Done? <==> Readable(key, r, rows)
    ensures !end.ending.Done? ==> end.ending.DecryptFailed?
    ensures end.ending.Done? ==>
              && (forall id :: At(end.replica, end.rows, id) == Settled(key, At(r, rows, id)))
              && end.summary.pushed + end.summary.conflicts == |Edited(r)|
              && end.summary.conflicts == |RefusedEdits(r, rows)|
              && end.summary.pulled == |Unmet(r, rows)|
  {
    var order: seq<Id>, list: seq<RemoteItem<Cipher>> :| SyncsVia(key, r, rows, [], order, list, end);
    var run := PushAll(key, Start(r, rows, []), order);
    PushAllQuiet(key, Start(r, rows, []), order);
    if run.ending.Done? {
      PushedAll(key, r, rows, order);
      assert ServeRows(run.rows, Now(run.weather).others) == run.rows;
      PullSucceeds(key, r, rows, run, list);
      MergeKeepsPaired(run.replica, key, list);
      if end.ending.Done? {
        PullCounts(key, r, rows, run, list);
        forall id ensures At(end.replica, end.rows, id) == Settled(key, At(r, rows, id)) {
          PullPlaces(key, r, rows, run, list, id);
        }
      }
    } else {
      var i :| 0 <= i < |order| && !ClashReadable(key, At(r, rows, order[i]));
      assert MustRead(At(r, rows, order[i]));
    }
  }

  lemma PushedAll(key: Bytes, r: Replica, rows: Rows, order: seq<Id>)
    requires Paired(r) && Visits(order, r)
    requires PushAll(key, Start(r, rows, []), order).ending.Done?
    ensures var run := PushAll(key, Start(r, rows, []), order);
            && Pushed(key, r, rows, run)
            && run.pushed + run.conflicts == |Edited(r)| && run.conflicts == |RefusedEdits(r, rows)|
  {
    var run := PushAll(key, Start(r, rows, []), order);
    PushAllQuiet(key, Start(r, rows, []), order);
    assert forall id :: id in order <==> id in Edited(r);
    LengthOfListing(order, Edited(r));
    RefusedIsCount(r, rows, order);
    assert RefusedEdits(r, rows) == RefusedIn(r, rows, order);
    forall id
      ensures ClashReadable(key, At(r, rows, id))
      ensures At(run.replica, run.rows, id) == AfterPushes(key, At(r, rows, id))
    {
      if id in order {
        var i :| 0 <= i < |order| && order[i] == id;
        assert ClashReadable(key, At(r, rows, order[i]));
      }
    }
  }
}
