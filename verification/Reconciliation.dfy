/** What a quiet sync promises its user: agreement with the server, and no edit silently lost. */
module Reconciliation {
  import opened Common
  import opened Crypto
  import opened SyncRules
  import opened Replicas
  import opened SyncSession
  import opened QuietSync

  /** The device holds this item clean at the server's version, or both hold nothing. */
  predicate Agreed(key: Bytes, b: Both) {
    if b.entry.Some? && b.row.Some?
    then b.entry.value.meta == Meta(b.row.value.version, false) &&
      b.row.value.ciphertext == Sealed(key, b.entry.value.item)
    else b.entry.None? && b.row.None?
  }

  ghost predicate Agrees(key: Bytes, r: Replica, rows: Rows)
    requires Paired(r)
  {
    forall id :: Agreed(key, At(r, rows, id))
  }

  /**
   * What a device can check before it syncs: an edited item has a server row or
   * is brand new; a clean item has a newer row, or a row at its own version that holds it.
   */
  predicate CanAgree(key: Bytes, b: Both) {
    match b.entry
    case None => true
    case Some(e) =>
      if e.meta.dirty then b.row.Some? || Base(e.meta).None?
      else
        && b.row.Some?
        && (b.row.value.version > e.meta.version
            || (b.row.value.version == e.meta.version && b.row.value.ciphertext == Sealed(key, e.item)))
  }

  /**
   * A quiet sync that succeeds ends in agreement with the server exactly when
   * each item could agree beforehand.
   */
  lemma QuietSyncAgreesExactly(key: Bytes, r: Replica, rows: Rows, end: SyncRun)
    requires Paired(r) && SyncsTo(key, r, rows, [], end) && end.ending.Done?
    ensures Paired(end.replica)
    ensures Agrees(key, end.replica, end.rows) <==> forall id :: CanAgree(key, At(r, rows, id))
  {
    QuietSyncSettles(key, r, rows, end);
    forall id ensures Agreed(key, At(end.replica, end.rows, id)) <==> CanAgree(key, At(r, rows, id)) {
      var b := At(r, rows, id);
      assert At(end.replica, end.rows, id) == Settled(key, b);
      if MustRead(b) {
        assert rows[id].ciphertext.key == key;
      }
      SettledAgrees(key, b);
    }
  }

  lemma SettledAgrees(key: Bytes, b: Both)
    requires MustRead(b) ==> b.row.value.ciphertext.key == key
    ensures Agreed(key, Settled(key, b)) <==> CanAgree(key, b)
  {
  }

  lemma SameEverywhere(r: Replica, rows: Rows, r': Replica, rows': Rows)
    requires Paired(r) && Paired(r')
    requires forall id :: At(r, rows, id) == At(r', rows', id)
    ensures r == r' && rows == rows'
  {
    forall id
      ensures id in r.meta <==> id in r'.meta
      ensures id in r.meta ==> r.meta[id] == r'.meta[id] && r.items[id] == r'.items[id]
      ensures id in rows <==> id in rows'
      ensures id in rows ==> rows[id] == rows'[id]
    {
      assert At(r, rows, id) == At(r', rows', id);
    }
    assert r.meta == r'.meta;
    assert r.items.Keys == r'.items.Keys;
    assert r.items == r'.items;
    assert rows == rows';
  }

  /** A sync changes nothing when nothing is edited and no row is new. */
  lemma CleanSyncIsIdle(key: Bytes, r: Replica, rows: Rows, end: SyncRun)
    requires Paired(r) && SyncsTo(key, r, rows, [], end)
    requires Edited(r) == {} && forall id :: !MustRead(At(r, rows, id))
    ensures end == SyncRun(Done, r, rows, Summary(0, 0, 0))
  {
    QuietSyncSettles(key, r, rows, end);
    assert Unmet(r, rows) == {} by {
      forall id ensures id !in Unmet(r, rows) {
        assert !MustRead(At(r, rows, id));
      }
    }
    forall id ensures At(end.replica, end.rows, id) == At(r, rows, id) {
      assert id !in Edited(r) && !MustRead(At(r, rows, id));
      assert At(end.replica, end.rows, id) == Settled(key, At(r, rows, id));
    }
    SameEverywhere(end.replica, end.rows, r, rows);
  }

  /** Once device and server agree, another sync changes nothing and counts nothing. */
  lemma SecondSyncIsIdle(key: Bytes, r: Replica, rows: Rows, end: SyncRun)
    requires Paired(r) && Agrees(key, r, rows) && SyncsTo(key, r, rows, [], end)
    ensures end == SyncRun(Done, r, rows, Summary(0, 0, 0))
  {
    forall id ensures !MustRead(At(r, rows, id)) && id !in Edited(r) {
      assert Agreed(key, At(r, rows, id));
    }
    CleanSyncIsIdle(key, r, rows, end);
  }

  /** Two devices that agree with the same rows hold the same vault. */
  lemma AgreementIsUnique(key: Bytes, r: Replica, r': Replica, rows: Rows)
    requires Paired(r) && Paired(r') && Agrees(key, r, rows) && Agrees(key, r', rows)
    ensures r == r'
  {
    forall id ensures At(r, rows, id) == At(r', rows, id) {
      assert Agreed(key, At(r, rows, id)) && Agreed(key, At(r', rows, id));
    }
    SameEverywhere(r, rows, r', rows);
  }

  // -------- where an edit goes --------

  /** The server took the edit as the next version. */
  predicate EditStored(key: Bytes, before: Both, after: Both)
    requires before.entry.Some?
  {
    var e := before.entry.value;
    var version := if before.row.Some? then before.row.value.version + 1 else 1;
    && (before.row.None? || Base(e.meta) == Some(before.row.value.version))
    && after == Both(Some(Entry(e.item, Meta(version, false))), Some(Row(Encrypt(key, e.item), version)))
  }

  /** The server held another version, and its readable copy replaced the edit. */
  predicate EditReplaced(key: Bytes, before: Both, after: Both)
    requires before.entry.Some?
  {
    && before.row.Some? && Base(before.entry.value.meta) != Some(before.row.value.version)
    && Decrypt(key, before.row.value.ciphertext).Some?
    && after == Both(Some(Entry(Decrypt(key, before.row.value.ciphertext).value,
       Meta(before.row.value.version, false))), before.row)
  }

  /** The server held nothing for an item it once knew: the edit stays, still to be pushed. */
  predicate EditKept(before: Both, after: Both)
    requires before.entry.Some?
  {
    before.row.None? && Base(before.entry.value.meta).Some? && after == before
  }

  ghost predicate ExactlyOne(p: bool, q: bool, r: bool) {
    (p && !q && !r) || (!p && q && !r) || (!p && !q && r)
  }

  lemma EditFate(key: Bytes, b: Both)
    requires b.entry.Some? && b.entry.value.meta.dirty
    requires MustRead(b) ==> b.row.value.ciphertext.key == key
    ensures var after := Settled(key, b);
            && ExactlyOne(EditStored(key, b, after), EditReplaced(key, b, after), EditKept(b, after))
            && (EditStored(key, b, after) <==> !IsRefused(b))
  {
  }

  /** The edits of `r` that a sync ending in `end` has stored. */
  ghost function StoredEdits(key: Bytes, r: Replica, rows: Rows, end: SyncRun): set<Id>
    requires Paired(r) && Paired(end.replica)
  {
    set id | id in Edited(r) && EditStored(key, At(r, rows, id), At(end.replica, end.rows, id))
  }

  /**
   * After a quiet sync each edit is in exactly one of three places, and the
   * summary counts the first kind as pushed and the other two as conflicts.
   */
  lemma NoSilentLoss(key: Bytes, r: Replica, rows: Rows, end: SyncRun)
    requires Paired(r) && SyncsTo(key, r, rows, [], end) && end.ending.Done?
    ensures Paired(end.replica)
    ensures forall id :: id in Edited(r) ==>
              var before, after := At(r, rows, id), At(end.replica, end.rows, id);
              ExactlyOne(EditStored(key, before, after), EditReplaced(key, before, after), EditKept(before, after))
    ensures end.summary.pushed == |StoredEdits(key, r, rows, end)|
    ensures end.summary.conflicts == |Edited(r) - StoredEdits(key, r, rows, end)|
  {
    QuietSyncSettles(key, r, rows, end);
    forall id | id in Edited(r)
      ensures var before, after := At(r, rows, id), At(end.replica, end.rows, id);
              && ExactlyOne(EditStored(key, before, after), EditReplaced(key, before, after), EditKept(before, after))
              && (EditStored(key, before, after) <==> !IsRefused(before))
    {
      assert MustRead(At(r, rows, id)) ==> rows[id].ciphertext.key == key;
      EditFate(key, At(r, rows, id));
      assert At(end.replica, end.rows, id) == Settled(key, At(r, rows, id));
    }
    CountStored(r, rows, StoredEdits(key, r, rows, end));
  }

  /** Device and server hold this item at this version. */
  predicate IsStored(key: Bytes, end: SyncRun, item: VaultItem, version: int)
    requires Paired(end.replica)
  {
    && item.id in end.rows && end.rows[item.id] == Row(Sealed(key, item), version)
    && item.id in end.replica.meta
    && end.replica.items[item.id] == item && end.replica.meta[item.id] == Meta(version, false)
  }

  /** The same about one item, wherever it is. */
  lemma BasedIsStored(key: Bytes, b: Both, item: VaultItem, version: int)
    requires b.entry == Some(Entry(item, Meta(version, true)))
    requires MustRead(b) ==> b.row.value.ciphertext.key == key
    ensures var current := if b.row.Some? then b.row.value.version else 0;
            var based := version == current && (version != 0 <==> b.row.Some?);
            var stored := Both(Some(Entry(item, Meta(current + 1, false))), Some(Row(Sealed(key, item), current + 1)));
            && (Settled(key, b) == stored <==> based)
            && (EditStored(key, b, Settled(key, b)) <==> based)
  {
    EditFate(key, b);
  }

  /**
   * An item marked as the successor of version `version`, and then a quiet sync:
   * the sync stores it as the next version of the server's row, and counts it as
   * pushed, exactly when the server's row is at that version, or when there is
   * neither a row nor a version.
   */
  lemma MarkedIsStoredExactly(key: Bytes, before: Replica, r: Replica, item: VaultItem, version: int, rows: Rows,
                              end: SyncRun)
    requires Paired(r) && Marked(before, r, item, version)
    requires SyncsTo(key, r, rows, [], end) && end.ending.Done?
    ensures Paired(end.replica)
    ensures var current := if item.id in rows then rows[item.id].version else 0;
            var based := version == current && (version != 0 <==> item.id in rows);
            && (IsStored(key, end, item, current + 1) <==> based)
            && (item.id in StoredEdits(key, r, rows, end) <==> based)
    ensures item.id in Edited(r) && end.summary.pushed == |StoredEdits(key, r, rows, end)|
  {
    NoSilentLoss(key, r, rows, end);
    QuietSyncSettles(key, r, rows, end);
    assert At(end.replica, end.rows, item.id) == Settled(key, At(r, rows, item.id));
    BasedIsStored(key, At(r, rows, item.id), item, version);
  }

  /** The edit `item` of a device that was at `before` is stored exactly if it was based on the server's row. */
  ghost predicate EditSynced(key: Bytes, before: Replica, rows: Rows, item: VaultItem, end: SyncRun)
    requires Paired(before) && item.id in before.meta
  {
    var known := before.meta[item.id].version;
    var current := if item.id in rows then rows[item.id].version else 0;
    && Paired(end.replica)
    && (IsStored(key, end, item, current + 1) <==> known == current && (known != 0 <==> item.id in rows))
    && end.summary.pulled == |Unmet(before, rows) - {item.id}|
  }

  lemma EditThenSync(key: Bytes, before: Replica, r: Replica, rows: Rows, item: VaultItem, end: SyncRun)
    requires Paired(before) && item.id in before.meta && Paired(r)
    requires Marked(before, r, item, before.meta[item.id].version)
    requires SyncsTo(key, r, rows, [], end) && end.ending.Done?
    ensures EditSynced(key, before, rows, item, end)
  {
    MarkedIsStoredExactly(key, before, r, item, before.meta[item.id].version, rows, end);
    PullsAreCounted(key, r, rows, end);
    UnmetAfterMark(before, r, rows, item, before.meta[item.id].version);
  }

  lemma PullsAreCounted(key: Bytes, r: Replica, rows: Rows, end: SyncRun)
    requires Paired(r) && SyncsTo(key, r, rows, [], end) && end.ending.Done?
    ensures end.summary.pulled == |Unmet(r, rows)|
  {
    QuietSyncSettles(key, r, rows, end);
  }

  lemma UnmetAfterMark(before: Replica, r: Replica, rows: Rows, item: VaultItem, version: int)
    requires Marked(before, r, item, version)
    ensures Unmet(r, rows) == Unmet(before, rows) - {item.id}
  {
  }

  lemma CountStored(r: Replica, rows: Rows, stored: set<Id>)
    requires Paired(r)
    requires forall id :: id in stored <==> id in Edited(r) && !IsRefused(At(r, rows, id))
    ensures |RefusedEdits(r, rows)| == |Edited(r) - stored| && |Edited(r)| == |stored| + |Edited(r) - stored|
  {
    var edited := Edited(r);
    var refused := RefusedEdits(r, rows);
    assert forall id :: id in refused <==> id in edited && id !in stored;
    assert refused == edited - stored;
    assert edited == stored + (edited - stored);
  }
}
