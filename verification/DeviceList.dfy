/** The device repository that the server uses by default: a list of records, searched by user and id. */
module DeviceList {
  import opened Common
  import opened Devices

  predicate IsFor(d: Device, user: string, id: string) {
    d.user == user && d.id == id
  }

  /** The records that a search finds: of several for one pair, the first. */
  function Records(list: seq<Device>): Store
    decreases |list|
  {
    if list == [] then map[]
    else
      var front, last := Records(list[..|list| - 1]), list[|list| - 1];
      var key := Pair(last.user, last.id);
      if key in front then front else front[key := last]
  }

  /** Records are filed under the pair they are for, and each pair in the list has one. */
  lemma {:induction false} RecordsAreFiled(list: seq<Device>, user: string, id: string)
    ensures Pair(user, id) in Records(list) <==> exists i | 0 <= i < |list| :: IsFor(list[i], user, id)
    ensures Pair(user, id) in Records(list) ==> IsFor(Records(list)[Pair(user, id)], user, id)
    decreases |list|
  {
    if list != [] {
      var front := list[..|list| - 1];
      RecordsAreFiled(front, user, id);
      if i :| 0 <= i < |list| && IsFor(list[i], user, id) {
        assert i < |front| ==> front[i] == list[i];
      }
      if i :| 0 <= i < |front| && IsFor(front[i], user, id) {
        assert list[i] == front[i];
      }
    }
  }

  /** Only pairs are keys. */
  lemma {:induction false} KeysArePairs(list: seq<Device>, key: Key)
    requires key in Records(list)
    ensures key.Pair?
    decreases |list|
  {
    if key in Records(list[..|list| - 1]) {
      KeysArePairs(list[..|list| - 1], key);
    }
  }

  /** `i` is where a search for the pair stops. */
  predicate IsFirst(list: seq<Device>, i: nat, user: string, id: string) {
    i < |list| && IsFor(list[i], user, id) && forall j | 0 <= j < i :: !IsFor(list[j], user, id)
  }

  lemma {:induction false} FirstIsFound(list: seq<Device>, i: nat, user: string, id: string)
    requires IsFirst(list, i, user, id)
    ensures Pair(user, id) in Records(list) && Records(list)[Pair(user, id)] == list[i]
    decreases |list|
  {
    var front := list[..|list| - 1];
    if i < |front| {
      FirstIsFound(front, i, user, id);
    } else {
      RecordsAreFiled(front, user, id);
    }
  }

  /** Changing the approval of the record found changes that one entry. */
  lemma {:induction false} ApprovalInPlace(list: seq<Device>, i: nat, user: string, id: string, approved: bool)
    requires IsFirst(list, i, user, id)
    ensures Records(list[i := list[i].(approved := approved)]) == WithApproval(Records(list), Pair(user, id), approved)
    decreases |list|
  {
    var front, after := list[..|list| - 1], list[i := list[i].(approved := approved)];
    FirstIsFound(list, i, user, id);
    if i < |front| {
      assert after[..|after| - 1] == front[i := front[i].(approved := approved)];
      FirstIsFound(front, i, user, id);
      ApprovalInPlace(front, i, user, id, approved);
    } else {
      assert after[..|after| - 1] == front;
      RecordsAreFiled(front, user, id);
    }
  }

  lemma AppendRecord(list: seq<Device>, rec: Device)
    ensures Records(list + [rec]) ==
            if Pair(rec.user, rec.id) in Records(list) then Records(list)
            else Records(list)[Pair(rec.user, rec.id) := rec]
  {
    assert (list + [rec])[..|list|] == list;
  }

  class FileDeviceRepository {
    var devices: seq<Device>

    constructor ()
      ensures devices == [] && View() == map[]
    {
      devices := [];
    }

    /** The list as the store of pairs that the steps of `Devices` are about. */
    function View(): Store
      reads this
    {
      Records(devices)
    }

    method ListForUser(user: string) returns (list: seq<Device>)
      ensures list != [] <==> HasDevices(View(), user)
      ensures forall d :: d in list <==> d in devices && d.user == user
    {
      list := [];
      for i := 0 to |devices|
        invariant forall d :: d in list <==> d in devices[..i] && d.user == user
      {
        if devices[i].user == user {
          list := list + [devices[i]];
        }
      }
      assert devices[..|devices|] == devices;
      ListedExactly(devices, user);
      if list != [] {
        assert list[0] in devices;
      }
    }

    method Find(user: string, id: string) returns (at: Option<nat>)
      ensures at.Some? ==> IsFirst(devices, at.value, user, id)
      ensures at.None? ==> forall j | 0 <= j < |devices| :: !IsFor(devices[j], user, id)
    {
      for i := 0 to |devices|
        invariant forall j | 0 <= j < i :: !IsFor(devices[j], user, id)
      {
        if IsFor(devices[i], user, id) {
          return Some(i);
        }
      }
      at := None;
    }

    method GetDevice(user: string, id: string) returns (d: Option<Device>)
      ensures d == Get(File, View(), user, id)
    {
      RecordsAreFiled(devices, user, id);
      var at := Find(user, id);
      if at.Some? {
        FirstIsFound(devices, at.value, user, id);
        d := Some(devices[at.value]);
      } else {
        d := None;
      }
    }

    /** The id is a fresh one, so that no record of the pair is there. */
    method Create(rec: Device)
      requires Get(File, View(), rec.user, rec.id).None?
      modifies this
      ensures devices == old(devices) + [rec] && View() == old(View())[Pair(rec.user, rec.id) := rec]
    {
      AppendRecord(devices, rec);
      devices := devices + [rec];
    }

    method SetApproved(user: string, id: string, approved: bool)
      modifies this
      ensures View() == WithApproval(old(View()), Pair(user, id), approved)
    {
      RecordsAreFiled(devices, user, id);
      var at := Find(user, id);
      if at.Some? {
        ApprovalInPlace(devices, at.value, user, id, approved);
        devices := devices[at.value := devices[at.value].(approved := approved)];
      }
    }
  }

  lemma ListedExactly(list: seq<Device>, user: string)
    ensures HasDevices(Records(list), user) <==> exists d | d in list :: d.user == user
  {
    if HasDevices(Records(list), user) {
      var key :| key in Records(list) && Records(list)[key].user == user;
      KeysArePairs(list, key);
      RecordsAreFiled(list, key.user, key.id);
      var i :| 0 <= i < |list| && IsFor(list[i], key.user, key.id);
      assert list[i] in list;
    }
    if d :| d in list && d.user == user {
      var i :| 0 <= i < |list| && list[i] == d;
      assert IsFor(list[i], d.user, d.id);
      RecordsAreFiled(list, d.user, d.id);
    }
  }
}
