/** The sync engine over the in-memory store, for many users. */
module VaultService {
  import opened Common
  import opened SyncRules
  import opened CompositeKey

  datatype StoredItem<+C> = StoredItem(id: Id, userId: string, ciphertext: C, version: int)

  /** One entry of a pull. */
  datatype RemoteItem<+C> = RemoteItem(id: Id, row: Row<C>)

  /** `list` holds each row once, in some order. */
  ghost predicate Enumerates<C(!new)>(list: seq<RemoteItem<C>>, rows: map<Id, Row<C>>) {
    && (forall i, j :: 0 <= i < j < |list| ==> list[i].id != list[j].id)
    && (forall i :: 0 <= i < |list| ==> list[i].id in rows && rows[list[i].id] == list[i].row)
    && (forall id :: id in rows ==> exists i :: 0 <= i < |list| && list[i].id == id)
  }

  /** Every key is the one its item spells out. */
  ghost predicate Keyed<C>(items: map<string, StoredItem<C>>) {
    forall key :: key in items ==> Plain(items[key].userId) && key == Join(items[key].userId, items[key].id)
  }

  /** What one user's devices see of the store. */
  ghost function RowsOf<C>(items: map<string, StoredItem<C>>, user: string): map<Id, Row<C>>
    requires Keyed(items)
  {
    map key | key in items && items[key].userId == user ::
      items[key].id := Row(items[key].ciphertext, items[key].version)
  }

  lemma RowsOfAt<C>(items: map<string, StoredItem<C>>, user: string, id: Id)
    requires Keyed(items) && Plain(user)
    ensures id in RowsOf(items, user) <==> Join(user, id) in items
    ensures id in RowsOf(items, user) ==>
              var item := items[Join(user, id)];
              item.userId == user && item.id == id && RowsOf(items, user)[id] == Row(item.ciphertext, item.version)
  {
    var key := Join(user, id);
    if key in items {
      JoinIsInjective(user, id, items[key].userId, items[key].id);
    }
  }

  /** Saving an item changes that one row of that one user. */
  lemma SaveRows<C>(items: map<string, StoredItem<C>>, item: StoredItem<C>, user: string)
    requires Keyed(items) && Plain(item.userId) && Plain(user)
    ensures var after := items[Join(item.userId, item.id) := item];
            && Keyed(after)
            && RowsOf(after, user) ==
               if user == item.userId then RowsOf(items, user)[item.id := Row(item.ciphertext, item.version)]
               else RowsOf(items, user)
  {
    var after := items[Join(item.userId, item.id) := item];
    forall id
      ensures Join(user, id) == Join(item.userId, item.id) ==> user == item.userId && id == item.id
      ensures id in RowsOf(items, user) <==> Join(user, id) in items
      ensures id in RowsOf(after, user) <==> Join(user, id) in after
    {
      if Join(user, id) == Join(item.userId, item.id) {
        JoinIsInjective(user, id, item.userId, item.id);
      }
      RowsOfAt(items, user, id);
      RowsOfAt(after, user, id);
    }
  }

  lemma DeleteRows<C>(items: map<string, StoredItem<C>>, owner: string, gone: Id, user: string)
    requires Keyed(items) && Plain(owner) && Plain(user)
    ensures var after := items - {Join(owner, gone)};
            && Keyed(after)
            && RowsOf(after, user) == if user == owner then RowsOf(items, user) - {gone} else RowsOf(items, user)
  {
    var after := items - {Join(owner, gone)};
    var rows := RowsOf(items, user);
    var expected := if user == owner then rows - {gone} else rows;
    assert Keyed(after);
    forall id
      ensures id in RowsOf(after, user) <==> id in expected
      ensures id in expected ==> RowsOf(after, user)[id] == expected[id]
    {
      RowsOfAt(items, user, id);
      RowsOfAt(after, user, id);
      if Join(user, id) == Join(owner, gone) {
        JoinIsInjective(user, id, owner, gone);
      }
    }
    assert RowsOf(after, user).Keys == expected.Keys;
  }

  /** `list` holds each of the user's rows once, but for those still to be looked at. */
  ghost predicate Listed<C(!new)>(list: seq<RemoteItem<C>>, rows: map<Id, Row<C>>, user: string, todo: set<string>) {
    && (forall i, j :: 0 <= i < j < |list| ==> list[i].id != list[j].id)
    && (forall i :: 0 <= i < |list| ==>
          list[i].id in rows && rows[list[i].id] == list[i].row && Join(user, list[i].id) !in todo)
    && (forall id :: id in rows && Join(user, id) !in todo ==> exists i :: 0 <= i < |list| && list[i].id == id)
  }

  lemma ListedSkips<C(!new)>(list: seq<RemoteItem<C>>, rows: map<Id, Row<C>>, user: string, todo: set<string>,
                      key: string)
    requires Listed(list, rows, user, todo) && forall id :: id in rows ==> Join(user, id) != key
    ensures Listed(list, rows, user, todo - {key})
  {
  }

  lemma ListedGrows<C(!new)>(list: seq<RemoteItem<C>>, rows: map<Id, Row<C>>, user: string, todo: set<string>,
                      item: RemoteItem<C>)
    requires Listed(list, rows, user, todo) && Join(user, item.id) in todo
    requires item.id in rows && rows[item.id] == item.row
    requires forall id :: id in rows && Join(user, id) == Join(user, item.id) ==> id == item.id
    ensures Listed(list + [item], rows, user, todo - {Join(user, item.id)})
  {
    var after := list + [item];
    forall id | id in rows && Join(user, id) !in todo - {Join(user, item.id)}
      ensures exists i :: 0 <= i < |after| && after[i].id == id
    {
      if id == item.id {
        assert after[|list|].id == id;
      } else {
        var i :| 0 <= i < |list| && list[i].id == id;
        assert after[i].id == id;
      }
    }
  }

  class VaultRepository<C(!new)> {
    var items: map<string, StoredItem<C>>

    ghost predicate Valid()
      reads this
    {
      Keyed(items)
    }

    constructor ()
      ensures Valid() && items == map[]
    {
      items := map[];
    }

    method ListSince(user: string) returns (list: seq<RemoteItem<C>>)
      requires Valid() && Plain(user)
      ensures Enumerates(list, RowsOf(items, user))
    {
      list := [];
      var todo := items.Keys;
      ghost var rows := RowsOf(items, user);
      forall id ensures id in rows ==> Join(user, id) in items {
        RowsOfAt(items, user, id);
      }
      while todo != {}
        invariant todo <= items.Keys && Listed(list, rows, user, todo)
        decreases todo
      {
        var key :| key in todo;
        var item := items[key];
        forall id ensures id in rows && Join(user, id) == key ==> user == item.userId && id == item.id {
          if id in rows && Join(user, id) == key {
            JoinIsInjective(user, id, item.userId, item.id);
          }
        }
        if item.userId == user {
          RowsOfAt(items, user, item.id);
          ListedGrows(list, rows, user, todo, RemoteItem(item.id, Row(item.ciphertext, item.version)));
          list := list + [RemoteItem(item.id, Row(item.ciphertext, item.version))];
        } else {
          ListedSkips(list, rows, user, todo, key);
        }
        todo := todo - {key};
      }
    }

    method Get(user: string, id: Id) returns (item: Option<StoredItem<C>>)
      requires Valid() && Plain(user)
      ensures item.Some? <==> id in RowsOf(items, user)
      ensures item.Some? ==> RowsOf(items, user)[id] == Row(item.value.ciphertext, item.value.version)
    {
      RowsOfAt(items, user, id);
      var key := Join(user, id);
      item := if key in items then Some(items[key]) else None;
    }

    method Save(item: StoredItem<C>)
      requires Valid() && Plain(item.userId)
      modifies this
      ensures Valid()
      ensures forall user :: Plain(user) ==>
                RowsOf(items, user) ==
                if user == item.userId then old(RowsOf(items, user))[item.id := Row(item.ciphertext, item.version)]
                else old(RowsOf(items, user))
    {
      forall user | Plain(user) { SaveRows(items, item, user); }
      items := items[Join(item.userId, item.id) := item];
    }

    method Delete(user: string, id: Id)
      requires Valid() && Plain(user)
      modifies this
      ensures Valid()
      ensures forall u :: Plain(u) ==>
                RowsOf(items, u) == if u == user then old(RowsOf(items, u)) - {id} else old(RowsOf(items, u))
    {
      forall u | Plain(u) { DeleteRows(items, user, id, u); }
      items := items - {Join(user, id)};
    }
  }

  class VaultService<C(!new)> {
    const repo: VaultRepository<C>

    constructor (repo: VaultRepository<C>)
      ensures this.repo == repo
    {
      this.repo := repo;
    }

    method Pull(user: string) returns (list: seq<RemoteItem<C>>)
      requires repo.Valid() && Plain(user)
      ensures Enumerates(list, RowsOf(repo.items, user))
    {
      list := repo.ListSince(user);
    }

    /** One user's push follows the version rule and leaves every other user's rows alone. */
    method Push(user: string, id: Id, ciphertext: C, base: Option<int>) returns (outcome: PushOutcome<C>)
      requires repo.Valid() && Plain(user)
      modifies repo
      ensures repo.Valid()
      ensures (RowsOf(repo.items, user), outcome) == SyncRules.Push(old(RowsOf(repo.items, user)), id, ciphertext, base)
      ensures forall other :: Plain(other) && other != user ==>
              RowsOf(repo.items, other) == old(RowsOf(repo.items, other))
    {
      var existing := repo.Get(user, id);
      var decision := ResolvePush(if existing.Some? then Some(existing.value.version) else None, base);
      if decision.Reject? {
        return Conflict(decision.serverVersion,
                        if existing.Some? then Some(Row(existing.value.ciphertext, existing.value.version)) else None);
      }
      repo.Save(StoredItem(id, user, ciphertext, decision.newVersion));
      return Accepted(decision.newVersion);
    }

    method Delete(user: string, id: Id)
      requires repo.Valid() && Plain(user)
      modifies repo
      ensures repo.Valid()
      ensures RowsOf(repo.items, user) == old(RowsOf(repo.items, user)) - {id}
      ensures forall other :: Plain(other) && other != user ==>
              RowsOf(repo.items, other) == old(RowsOf(repo.items, other))
    {
      repo.Delete(user, id);
    }
  }
}
