/** Quiet syncs inside the protocol: they are runs of it, and they make all devices equal. */
module Convergence {
  import opened Common
  import opened Crypto
  import opened SyncRules
  import opened VaultService
  import opened Replicas
  import opened SyncSession
  import opened QuietSync
  import opened Reconciliation
  import opened SyncProtocol

  lemma {:induction false} RunAppend(key: Bytes, w: World, first: seq<Action>, second: seq<Action>)
    ensures Run(key, w, first + second) == Run(key, Run(key, w, first), second)
    decreases |first|
  {
    if first == [] {
      assert first + second == second;
    } else {
      assert (first + second)[1..] == first[1..] + second;
      RunAppend(key, Apply(key, w, first[0]), first[1..], second);
    }
  }

  // -------- a quiet sync is a run of the protocol --------

  ghost function OrderIds(order: seq<Id>): set<Id> {
    set id | id in order
  }

  /** One turn of the push loop is two protocol steps. */
  lemma PushOneIsARun(key: Bytes, w: World, d: nat, run: PushRun, order: seq<Id>)
    requires order != [] && forall i, j :: 0 <= i < j < |order| ==> order[i] != order[j]
    requires Paired(run.replica) && order[0] in run.replica.meta
    requires d in w.devices && w.rows == run.rows && run.weather == [] && run.ending.Done?
    requires w.devices[d].memory == run.replica && w.devices[d].phase == Pushing(OrderIds(order))
    requires PushOne(key, run, order[0]).ending.Done?
    ensures var next := PushOne(key, run, order[0]);
            var after := Run(key, w, [SendPush(d, order[0]), ReceivePush(d)]);
            && after.rows == next.rows
            && after.devices == w.devices[d := Device(next.replica, w.devices[d].disk, Pushing(OrderIds(order[1..])))]
  {
    var id := order[0];
    assert order == [id] + order[1..];
    assert OrderIds(order) - {id} == OrderIds(order[1..]);
    var sent := Apply(key, w, SendPush(d, id));
    assert CanPush(w.devices[d], id);
    var actions := [SendPush(d, id), ReceivePush(d)];
    assert actions[1..] == [ReceivePush(d)];
    assert Run(key, w, actions) == Run(key, sent, [ReceivePush(d)]);
    assert [ReceivePush(d)][1..] == [];
    assert Run(key, sent, [ReceivePush(d)]) == Apply(key, sent, ReceivePush(d));
  }

  lemma {:induction false} PushesAreARun(key: Bytes, w: World, d: nat, run: PushRun, order: seq<Id>)
    returns (actions: seq<Action>)
    requires forall i, j :: 0 <= i < j < |order| ==> order[i] != order[j]
    requires Paired(run.replica) && forall i :: 0 <= i < |order| ==> order[i] in run.replica.meta
    requires d in w.devices && w.rows == run.rows && run.weather == [] && run.ending.Done?
    requires w.devices[d].memory == run.replica && w.devices[d].phase == Pushing(OrderIds(order))
    requires PushAll(key, run, order).ending.Done?
    ensures NoDeletes(actions)
    ensures var end := PushAll(key, run, order);
            var after := Run(key, w, actions);
            after.rows == end.rows && after.devices ==
              w.devices[d := Device(end.replica, w.devices[d].disk, Pushing({}))]
    decreases |order|
  {
    if order == [] {
      actions := [];
      assert OrderIds(order) == {};
      assert w.devices[d] == Device(run.replica, w.devices[d].disk, Pushing({}));
    } else {
      var next := PushOne(key, run, order[0]);
      assert next.ending.Done?;
      PushOneIsARun(key, w, d, run, order);
      var step := [SendPush(d, order[0]), ReceivePush(d)];
      forall i | 0 <= i < |order[1..]| ensures order[1..][i] in next.replica.meta {
        assert order[1..][i] == order[i + 1];
      }
      var rest := PushesAreARun(key, Run(key, w, step), d, next, order[1..]);
      actions := step + rest;
      RunAppend(key, w, step, rest);
    }
  }

  lemma RunOne(key: Bytes, w: World, a: Action)
    ensures Run(key, w, [a]) == Apply(key, w, a)
  {
    assert [a][1..] == [];
  }

  /** What a quiet sync of device `d` makes of the world. */
  ghost predicate QuietlySynced(key: Bytes, w: World, d: nat, w': World) {
    && d in w.devices && w.devices[d].phase.Idle? && Paired(w.devices[d].memory)
    && exists end :: SyncsTo(key, w.devices[d].memory, w.rows, [], end) && Leads(w, d, end, w')
  }

  ghost predicate Leads(w: World, d: nat, end: SyncRun, w': World)
    requires d in w.devices
  {
    && end.ending.Done? && w'.rows == end.rows
    && w'.devices == w.devices[d := Device(end.replica, end.replica, Idle)]
  }

  lemma PullIsARun(key: Bytes, w: World, d: nat, list: seq<RemoteItem<Cipher>>)
    requires d in w.devices && w.devices[d].phase == Pushing({}) && Enumerates(list, w.rows)
    requires MergePulled(w.devices[d].memory, key, list).ok
    ensures var merged := MergePulled(w.devices[d].memory, key, list).replica;
            Run(key, w, [SendPull(d), ReceivePull(d, list, true)]) ==
              w.(devices := w.devices[d := Device(merged, merged, Idle)])
  {
    var asked := Apply(key, w, SendPull(d));
    var received := ReceivePull(d, list, true);
    assert [SendPull(d), received] == [SendPull(d)] + [received];
    RunOne(key, w, SendPull(d));
    RunOne(key, asked, received);
    RunAppend(key, w, [SendPull(d)], [received]);
  }

  lemma BeginIsARun(key: Bytes, w: World, d: nat)
    requires d in w.devices && w.devices[d].phase.Idle?
    ensures Run(key, w, [BeginSync(d)]) ==
            w.(devices := w.devices[d := w.devices[d].(phase := Pushing(DirtyIds(w.devices[d].memory)))])
  {
    RunOne(key, w, BeginSync(d));
  }

  /** A quiet sync, as the app's loops compute it, is a run of protocol steps. */
  lemma QuietSyncIsARun(key: Bytes, w: World, d: nat, end: SyncRun) returns (actions: seq<Action>)
    requires d in w.devices && w.devices[d].phase.Idle? && Paired(w.devices[d].memory)
    requires SyncsTo(key, w.devices[d].memory, w.rows, [], end) && end.ending.Done?
    ensures NoDeletes(actions)
    ensures Leads(w, d, end, Run(key, w, actions))
  {
    var r := w.devices[d].memory;
    var order: seq<Id>, list: seq<RemoteItem<Cipher>> :| SyncsVia(key, r, w.rows, [], order, list, end);
    actions := PhasesAreARun(key, w, d, order, list);
  }

  lemma PhasesAreARun(key: Bytes, w: World, d: nat, order: seq<Id>, list: seq<RemoteItem<Cipher>>)
    returns (actions: seq<Action>)
    requires d in w.devices && w.devices[d].phase.Idle? && Paired(w.devices[d].memory)
    requires Visits(order, w.devices[d].memory)
    requires var run := PushAll(key, Start(w.devices[d].memory, w.rows, []), order);
             && run.ending.Done? && Enumerates(list, ServeRows(run.rows, Now(run.weather).others))
             && Finish(key, run, list).ending.Done?
    ensures NoDeletes(actions)
    ensures Leads(w, d, Finish(key, PushAll(key, Start(w.devices[d].memory, w.rows, []), order), list),
            Run(key, w, actions))
  {
    var r := w.devices[d].memory;
    var start := Start(r, w.rows, []);
    var run := PushAll(key, start, order);
    PushAllQuiet(key, start, order);
    BeginIsARun(key, w, d);
    var begun := Run(key, w, [BeginSync(d)]);
    assert OrderIds(order) == DirtyIds(r);
    var pushes := PushesAreARun(key, begun, d, start, order);
    var pushed := Run(key, begun, pushes);
    var pulls := [SendPull(d), ReceivePull(d, list, true)];
    assert pushed.devices[d] == Device(run.replica, w.devices[d].disk, Pushing({}));
    PullIsARun(key, pushed, d, list);
    actions := [BeginSync(d)] + (pushes + pulls);
    RunAppend(key, begun, pushes, pulls);
    RunAppend(key, w, [BeginSync(d)], pushes + pulls);
  }

  // -------- convergence --------

  /** In a sound world every item of every device can agree with the server. */
  lemma SoundDevicesCanSync(key: Bytes, w: World, d: nat)
    requires Sound(key, w) && d in w.devices
    ensures Readable(key, w.devices[d].memory, w.rows)
    ensures forall id :: CanAgree(key, At(w.devices[d].memory, w.rows, id))
  {
    forall id ensures CanAgree(key, At(w.devices[d].memory, w.rows, id)) {
      assert DeviceOk(key, w.accepted, w.devices[d]);
    }
  }

  /**
   * In every world that a run reaches whose deletions come before any device has
   * heard of the row, a quiet sync of any idle device succeeds and ends with the device holding exactly the server's
   * rows, all clean at the server's versions; each edit was pushed or counted
   * as a conflict; and syncing once more changes nothing.
   */
  lemma QuietSyncConverges(key: Bytes, devices: set<nat>, actions: seq<Action>, d: nat, end: SyncRun)
    requires Cautious(key, Fresh(devices), actions)
    requires var w := Run(key, Fresh(devices), actions);
             && d in w.devices && w.devices[d].phase.Idle? && Paired(w.devices[d].memory)
             && SyncsTo(key, w.devices[d].memory, w.rows, [], end)
    ensures var w := Run(key, Fresh(devices), actions);
            && end.ending.Done? && Paired(end.replica)
            && Agrees(key, end.replica, end.rows)
            && end.summary.pushed + end.summary.conflicts == |Edited(w.devices[d].memory)|
    ensures forall again :: SyncsTo(key, end.replica, end.rows, [], again) ==>
              again == SyncRun(Done, end.replica, end.rows, Summary(0, 0, 0))
  {
    EveryRunIsSound(key, devices, actions);
    var w := Run(key, Fresh(devices), actions);
    var r := w.devices[d].memory;
    SoundDevicesCanSync(key, w, d);
    QuietSyncSettles(key, r, w.rows, end);
    QuietSyncAgreesExactly(key, r, w.rows, end);
    forall again | SyncsTo(key, end.replica, end.rows, [], again)
      ensures again == SyncRun(Done, end.replica, end.rows, Summary(0, 0, 0))
    {
      SecondSyncIsIdle(key, end.replica, end.rows, again);
    }
  }

  /** The devices in `order` take turns, one after another, with no edits in between. */
  ghost predicate InTurn(turn: (World, nat, World) -> bool, w: World, order: seq<nat>, w': World)
    decreases |order|
  {
    if order == [] then w' == w
    else exists mid :: turn(w, order[0], mid) && InTurn(turn, mid, order[1..], w')
  }

  ghost function QuietTurn(key: Bytes): (World, nat, World) -> bool {
    (w: World, d: nat, w': World) => QuietlySynced(key, w, d, w')
  }

  /** The turns are quiet syncs. */
  ghost predicate SyncedInTurn(key: Bytes, w: World, order: seq<nat>, w': World) {
    InTurn(QuietTurn(key), w, order, w')
  }

  ghost predicate Covers(order: seq<nat>, w: World) {
    forall d :: d in w.devices ==> d in order
  }

  /** The world is sound for some record of what its server accepted. */
  ghost predicate Grounded(key: Bytes, w: World) {
    exists accepted :: Sound(key, w.(accepted := accepted))
  }

  ghost function GroundedWorlds(key: Bytes): World -> bool {
    w => Grounded(key, w)
  }

  lemma AgreementIsClean(key: Bytes, r: Replica, rows: Rows)
    requires Paired(r) && Agrees(key, r, rows)
    ensures DirtyIds(r) == {}
  {
    forall id ensures id !in DirtyIds(r) {
      assert Agreed(key, At(r, rows, id));
    }
  }

  /** A device with nothing edited leaves the server's rows as they are. */
  lemma CleanSyncKeepsRows(key: Bytes, r: Replica, rows: Rows, end: SyncRun)
    requires Paired(r) && DirtyIds(r) == {} && SyncsTo(key, r, rows, [], end) && end.ending.Done?
    ensures end.rows == rows
  {
    QuietSyncSettles(key, r, rows, end);
    forall id
      ensures id in end.rows <==> id in rows
      ensures id in rows ==> end.rows[id] == rows[id]
    {
      assert id !in DirtyIds(r);
      assert At(end.replica, end.rows, id) == Settled(key, At(r, rows, id));
      CleanRowStays(key, At(r, rows, id));
      assert RowAt(end.rows, id) == RowAt(rows, id);
    }
  }

  lemma CleanRowStays(key: Bytes, b: Both)
    requires b.entry.Some? ==> !b.entry.value.meta.dirty
    ensures Settled(key, b).row == b.row
  {
  }

  ghost predicate CleanAt(w: World, d: nat) {
    d in w.devices && DirtyIds(w.devices[d].memory) == {}
  }

  ghost predicate AgreeAt(key: Bytes, w: World, d: nat) {
    d in w.devices && Paired(w.devices[d].memory) && Agrees(key, w.devices[d].memory, w.rows)
  }

  /** The sound world that a quiet sync of a sound world reaches. */
  lemma SyncReaches(key: Bytes, w: World, d: nat, w': World, end: SyncRun) returns (sound: World)
    requires Sound(key, w) && d in w.devices && w.devices[d].phase.Idle?
    requires SyncsTo(key, w.devices[d].memory, w.rows, [], end) && Leads(w, d, end, w')
    ensures Sound(key, sound) && sound.rows == w'.rows && sound.devices == w'.devices
  {
    var actions := QuietSyncIsARun(key, w, d, end);
    sound := Run(key, w, actions);
    WithoutDeletesIsCautious(key, w, actions);
    SoundRuns(key, w, actions);
  }

  /** A quiet sync of a device in a sound world: clean, in agreement, and no other device touched. */
  lemma SyncIsATurn(key: Bytes, w: World, d: nat, w': World, end: SyncRun)
    requires Sound(key, w) && d in w.devices && w.devices[d].phase.Idle?
    requires SyncsTo(key, w.devices[d].memory, w.rows, [], end) && Leads(w, d, end, w')
    ensures TurnEffect(key, w, d, w')
  {
    SyncedDeviceAgrees(key, w, d, end);
    if DirtyIds(w.devices[d].memory) == {} {
      CleanSyncKeepsRows(key, w.devices[d].memory, w.rows, end);
    }
    LeadingIsATurn(key, w, d, w', end);
  }

  lemma LeadingIsATurn(key: Bytes, w: World, d: nat, w': World, end: SyncRun)
    requires d in w.devices && Leads(w, d, end, w')
    requires Paired(end.replica) && Agrees(key, end.replica, end.rows) && DirtyIds(end.replica) == {}
    requires DirtyIds(w.devices[d].memory) == {} ==> end.rows == w.rows
    ensures TurnEffect(key, w, d, w')
  {
  }

  lemma SyncedDeviceAgrees(key: Bytes, w: World, d: nat, end: SyncRun)
    requires Sound(key, w) && d in w.devices
    requires SyncsTo(key, w.devices[d].memory, w.rows, [], end) && end.ending.Done?
    ensures Paired(end.replica) && Agrees(key, end.replica, end.rows) && DirtyIds(end.replica) == {}
  {
    SoundDevicesCanSync(key, w, d);
    QuietSyncAgreesExactly(key, w.devices[d].memory, w.rows, end);
    AgreementIsClean(key, end.replica, end.rows);
  }

  lemma GroundedStep(key: Bytes, w: World, d: nat, w': World)
    requires Grounded(key, w) && QuietlySynced(key, w, d, w')
    ensures Grounded(key, w') && TurnEffect(key, w, d, w')
  {
    var accepted :| Sound(key, w.(accepted := accepted));
    var end :| SyncsTo(key, w.devices[d].memory, w.rows, [], end) && Leads(w, d, end, w');
    var from := w.(accepted := accepted);
    var sound := SyncReaches(key, from, d, w', end);
    assert w'.(accepted := sound.accepted) == sound;
    SyncIsATurn(key, from, d, w', end);
    SameTurn(key, from, w, d, w');
  }

  lemma SameTurn(key: Bytes, from: World, w: World, d: nat, w': World)
    requires TurnEffect(key, from, d, w') && from.rows == w.rows && from.devices == w.devices
    ensures TurnEffect(key, w, d, w')
  {
  }

  /** What a turn does to worlds that are `good`. */
  ghost predicate TurnLaw(key: Bytes, good: World -> bool, turn: (World, nat, World) -> bool) {
    forall w, d, w' :: good(w) && turn(w, d, w') ==> good(w') && TurnEffect(key, w, d, w')
  }

  ghost predicate TurnEffect(key: Bytes, w: World, d: nat, w': World) {
    && CleanAt(w', d) && AgreeAt(key, w', d)
    && (forall e :: e != d ==> (e in w.devices <==> e in w'.devices))
    && (forall e :: e != d && e in w.devices ==> w'.devices[e] == w.devices[e])
    && (CleanAt(w, d) ==> w'.rows == w.rows)
    && d in w.devices
  }

  /** A device that has had its turn holds no edits, and stays that way. */
  lemma {:induction false} FirstRound(key: Bytes, good: World -> bool, turn: (World, nat, World) -> bool,
                                      w: World, order: seq<nat>, w': World, d: nat)
    requires TurnLaw(key, good, turn) && good(w) && InTurn(turn, w, order, w')
    requires d in order || CleanAt(w, d)
    ensures good(w') && CleanAt(w', d)
    decreases |order|
  {
    if order != [] {
      var mid :| turn(w, order[0], mid) && InTurn(turn, mid, order[1..], w');
      assert TurnEffect(key, w, order[0], mid);
      FirstRound(key, good, turn, mid, order[1..], w', d);
    }
  }

  /** From clean devices the rows stay put, and a device that has had its turn agrees with them. */
  lemma {:induction false} SecondRound(key: Bytes, good: World -> bool, turn: (World, nat, World) -> bool,
                                       w: World, order: seq<nat>, w': World, d: nat)
    requires TurnLaw(key, good, turn) && good(w) && InTurn(turn, w, order, w')
    requires forall e :: e in w.devices ==> CleanAt(w, e)
    requires d in order || AgreeAt(key, w, d)
    ensures w'.rows == w.rows && AgreeAt(key, w', d)
    decreases |order|
  {
    if order != [] {
      var mid :| turn(w, order[0], mid) && InTurn(turn, mid, order[1..], w');
      assert TurnEffect(key, w, order[0], mid);
      forall e | e in mid.devices ensures CleanAt(mid, e) {
        if e != order[0] { assert CleanAt(w, e); }
      }
      SecondRound(key, good, turn, mid, order[1..], w', d);
    }
  }

  lemma {:induction false} InTurnKeepsDevices(key: Bytes, good: World -> bool, turn: (World, nat, World) -> bool,
                                              w: World, order: seq<nat>, w': World)
    requires TurnLaw(key, good, turn) && good(w) && InTurn(turn, w, order, w')
    ensures good(w') && forall d :: d in w.devices <==> d in w'.devices
    decreases |order|
  {
    if order != [] {
      var mid :| turn(w, order[0], mid) && InTurn(turn, mid, order[1..], w');
      assert TurnEffect(key, w, order[0], mid);
      InTurnKeepsDevices(key, good, turn, mid, order[1..], w');
    }
  }

  lemma TwoRounds(key: Bytes, good: World -> bool, turn: (World, nat, World) -> bool,
                  w: World, first: seq<nat>, middle: World, second: seq<nat>, last: World)
    requires TurnLaw(key, good, turn) && good(w)
    requires InTurn(turn, w, first, middle) && InTurn(turn, middle, second, last)
    requires Covers(first, middle) && Covers(second, middle)
    ensures forall d :: d in last.devices ==> AgreeAt(key, last, d)
  {
    InTurnKeepsDevices(key, good, turn, w, first, middle);
    InTurnKeepsDevices(key, good, turn, middle, second, last);
    forall d | d in middle.devices ensures CleanAt(middle, d) {
      FirstRound(key, good, turn, w, first, middle, d);
    }
    forall d | d in last.devices ensures AgreeAt(key, last, d) {
      SecondRound(key, good, turn, middle, second, last, d);
    }
  }

  lemma AllAgreeAllEqual(key: Bytes, w: World)
    requires forall d :: d in w.devices ==> AgreeAt(key, w, d)
    ensures forall d, e :: d in w.devices && e in w.devices ==> w.devices[d].memory == w.devices[e].memory
  {
    forall d, e | d in w.devices && e in w.devices ensures w.devices[d].memory == w.devices[e].memory {
      assert AgreeAt(key, w, d) && AgreeAt(key, w, e);
      AgreementIsUnique(key, w.devices[d].memory, w.devices[e].memory, w.rows);
    }
  }

  lemma QuietSyncsAreTurns(key: Bytes)
    ensures TurnLaw(key, GroundedWorlds(key), QuietTurn(key))
  {
    forall w, d, w' | GroundedWorlds(key)(w) && QuietTurn(key)(w, d, w')
      ensures GroundedWorlds(key)(w') && TurnEffect(key, w, d, w')
    {
      GroundedStep(key, w, d, w');
    }
  }

  /**
   * From any world that such a run reaches, once every device has synced quietly
   * in each of two rounds, in any order and with no edits in between, all devices
   * hold the same vault, and it is the server's.
   */
  lemma TwoRoundsMakeAllEqual(key: Bytes, devices: set<nat>, actions: seq<Action>,
                              first: seq<nat>, middle: World, second: seq<nat>, last: World)
    requires Cautious(key, Fresh(devices), actions)
    requires SyncedInTurn(key, Run(key, Fresh(devices), actions), first, middle)
    requires SyncedInTurn(key, middle, second, last)
    requires Covers(first, middle) && Covers(second, middle)
    ensures forall d :: d in last.devices ==> AgreeAt(key, last, d)
    ensures forall d, e :: d in last.devices && e in last.devices ==> last.devices[d].memory == last.devices[e].memory
  {
    EveryRunIsSound(key, devices, actions);
    var w := Run(key, Fresh(devices), actions);
    assert GroundedWorlds(key)(w) by {
      assert w.(accepted := w.accepted) == w;
    }
    QuietSyncsAreTurns(key);
    TwoRounds(key, GroundedWorlds(key), QuietTurn(key), w, first, middle, second, last);
    AllAgreeAllEqual(key, last);
  }

  // -------- with deletions --------

  const STALE := VaultItem("x", "a")

  /** The device's copy of the item, before and after the server took it as version 1. */
  const ADDED := Replica(map["x" := STALE], map["x" := Meta(0, true)])
  const CLEAN := Replica(map["x" := STALE], map["x" := Meta(1, false)])

  lemma AddedItemIsPushed(key: Bytes)
    ensures var w := Run(key, Fresh({0}), [AddItem(0, STALE, true), BeginSync(0), SendPush(0, "x")]);
            w == World(map["x" := Row(Sealed(key, STALE), 1)], map["x" := [STALE]],
                       map[0 := Device(ADDED, ADDED, PushSent("x", {}, Accepted(1)))])
  {
    var w1 := World(map[], map[], map[0 := Device(ADDED, ADDED, Idle)]);
    assert Apply(key, Fresh({0}), AddItem(0, STALE, true)) == w1;
    var w2 := World(map[], map[], map[0 := Device(ADDED, ADDED, Pushing({"x"}))]);
    assert DirtyIds(ADDED) == {"x"};
    assert Apply(key, w1, BeginSync(0)) == w2;
    assert {"x"} - {"x"} == {} && [] + [STALE] == [STALE];
    assert PushFrom(key, map[], w2.devices[0], "x") == (map["x" := Row(Sealed(key, STALE), 1)], Accepted(1));
    RunSteps(key, Fresh({0}), AddItem(0, STALE, true), [BeginSync(0), SendPush(0, "x")]);
    RunSteps(key, w1, BeginSync(0), [SendPush(0, "x")]);
    RunOne(key, w2, SendPush(0, "x"));
  }

  /** A device adds an item, the server takes it as version 1, and then the item is deleted there. */
  lemma DeletionLeavesAStaleItem(key: Bytes)
    ensures var actions := [AddItem(0, STALE, true), BeginSync(0), SendPush(0, "x")] +
            [ReceivePush(0), FailSync(0), DeleteRow("x")];
            Run(key, Fresh({0}), actions) == World(map[], map[], map[0 := Device(CLEAN, ADDED, Idle)])
  {
    var first := [AddItem(0, STALE, true), BeginSync(0), SendPush(0, "x")];
    AddedItemIsPushed(key);
    var rows, accepted := map["x" := Row(Sealed(key, STALE), 1)], map["x" := [STALE]];
    var w3 := World(rows, accepted, map[0 := Device(ADDED, ADDED, PushSent("x", {}, Accepted(1)))]);
    var w4 := World(rows, accepted, map[0 := Device(CLEAN, ADDED, Pushing({}))]);
    var w5 := World(rows, accepted, map[0 := Device(CLEAN, ADDED, Idle)]);
    assert AfterPush(ADDED, key, "x", Accepted(1)) == Some(CLEAN) by {
      assert map["x" := Meta(0, true)]["x" := Meta(1, false)] == map["x" := Meta(1, false)];
    }
    assert Apply(key, w3, ReceivePush(0)) == w4;
    assert Apply(key, w4, FailSync(0)) == w5;
    RunAppend(key, Fresh({0}), first, [ReceivePush(0), FailSync(0), DeleteRow("x")]);
    RunSteps(key, w3, ReceivePush(0), [FailSync(0), DeleteRow("x")]);
    RunSteps(key, w4, FailSync(0), [DeleteRow("x")]);
    RunOne(key, w5, DeleteRow("x"));
    assert rows - {"x"} == map[] && accepted - {"x"} == map[];
  }

  lemma RunSteps(key: Bytes, w: World, a: Action, rest: seq<Action>)
    ensures Run(key, w, [a] + rest) == Run(key, Apply(key, w, a), rest)
  {
    assert ([a] + rest)[1..] == rest;
  }

  /**
   * With a deletion the agreement can fail for good: the device left holding
   * that item syncs quietly and changes nothing, because a pull only adds and replaces.
   */
  lemma StaleItemSurvivesSync(key: Bytes, end: SyncRun)
    requires SyncsTo(key, CLEAN, map[], [], end)
    ensures end == SyncRun(Done, CLEAN, map[], Summary(0, 0, 0)) && !Agrees(key, CLEAN, map[])
  {
    CleanSyncIsIdle(key, CLEAN, map[], end);
    assert !Agreed(key, At(CLEAN, map[], "x"));
  }

  // -------- one version, two items --------

  const FIRST := VaultItem("x", "a")
  const SECOND := VaultItem("x", "b")

  function RowOf(key: Bytes, item: VaultItem): Rows {
    map["x" := Row(Sealed(key, item), 1)]
  }

  function Holding(item: VaultItem, meta: Meta): Replica {
    Replica(map["x" := item], map["x" := meta])
  }

  function TwoDevices(rows: Rows, accepted: map<Id, seq<VaultItem>>, a: Device, b: Device): World {
    World(rows, accepted, map[0 := a, 1 := b])
  }

  const UNUSED := Device(EMPTY, EMPTY, Idle)

  /** Device 1 edited its item, and has only that state on disk. */
  function Edits(item: VaultItem, phase: Phase): Device {
    Device(Holding(item, Meta(0, true)), Holding(item, Meta(0, true)), phase)
  }

  /** The server holds the first item, device 0 pulled it, and device 1 never heard that its push was taken. */
  function Between(key: Bytes): World {
    TwoDevices(RowOf(key, FIRST), map["x" := [FIRST]],
         Device(Holding(FIRST, Meta(1, false)), Holding(FIRST, Meta(1, false)), Idle), Edits(FIRST, Idle))
  }

  /** Both devices hold the item clean at version 1, and it is not the same item. */
  function Diverged(key: Bytes): World {
    TwoDevices(RowOf(key, SECOND), map["x" := [SECOND]],
         Device(Holding(FIRST, Meta(1, false)), Holding(FIRST, Meta(1, false)), Idle),
         Device(Holding(SECOND, Meta(1, false)), Holding(SECOND, Meta(0, true)), Idle))
  }

  const PUSHED_UNHEARD := [AddItem(1, FIRST, true), BeginSync(1), SendPush(1, "x"), FailSync(1)]

  function Pulled(key: Bytes): seq<Action> {
    [BeginSync(0), SendPull(0), ReceivePull(0, [RemoteItem("x", Row(Sealed(key, FIRST), 1))], true)]
  }

  const RECREATED := [DeleteRow("x"), EditItem(1, "x", "b", true), BeginSync(1), SendPush(1, "x"), ReceivePush(1),
    FailSync(1)]

  lemma PushIsUnheard(key: Bytes)
    ensures Run(key, TwoDevices(map[], map[], UNUSED, UNUSED), PUSHED_UNHEARD) ==
            TwoDevices(RowOf(key, FIRST), map["x" := [FIRST]], UNUSED, Edits(FIRST, Idle))
  {
    var w0 := TwoDevices(map[], map[], UNUSED, UNUSED);
    var w1 := TwoDevices(map[], map[], UNUSED, Edits(FIRST, Idle));
    var w2 := TwoDevices(map[], map[], UNUSED, Edits(FIRST, Pushing({"x"})));
    var w3 := TwoDevices(RowOf(key, FIRST), map["x" := [FIRST]], UNUSED, Edits(FIRST, PushSent("x", {}, Accepted(1))));
    assert Apply(key, w0, AddItem(1, FIRST, true)) == w1;
    assert Apply(key, w1, BeginSync(1)) == w2 by { DirtyX(FIRST); }
    assert Apply(key, w2, SendPush(1, "x")) == w3 by { SendsX(key, FIRST, w2.devices[1]); }
    RunSteps(key, w0, AddItem(1, FIRST, true), [BeginSync(1), SendPush(1, "x"), FailSync(1)]);
    RunSteps(key, w1, BeginSync(1), [SendPush(1, "x"), FailSync(1)]);
    RunSteps(key, w2, SendPush(1, "x"), [FailSync(1)]);
    RunOne(key, w3, FailSync(1));
  }

  lemma DirtyX(item: VaultItem)
    ensures DirtyIds(Holding(item, Meta(0, true))) == {"x"}
  {
  }

  lemma EditsX()
    ensures Edit(Holding(FIRST, Meta(0, true)), "x", "b") == Holding(SECOND, Meta(0, true))
  {
    assert map["x" := FIRST]["x" := SECOND] == map["x" := SECOND];
    assert map["x" := Meta(0, true)]["x" := Meta(0, true)] == map["x" := Meta(0, true)];
  }

  lemma SendsX(key: Bytes, item: VaultItem, device: Device)
    requires device == Edits(item, Pushing({"x"}))
    ensures CanPush(device, "x") && PushFrom(key, map[], device, "x") == (RowOf(key, item), Accepted(1))
    ensures {"x"} - {"x"} == {} && Append(map[], "x", item) == map["x" := [item]]
  {
    assert [] + [item] == [item];
  }

  lemma PullIsHeard(key: Bytes)
    ensures Run(key, TwoDevices(RowOf(key, FIRST), map["x" := [FIRST]], UNUSED, Edits(FIRST, Idle)), Pulled(key)) ==
            Between(key)
  {
    var rows, accepted := RowOf(key, FIRST), map["x" := [FIRST]];
    var item: RemoteItem<Cipher> := RemoteItem("x", Row(Sealed(key, FIRST), 1));
    var w0 := TwoDevices(rows, accepted, UNUSED, Edits(FIRST, Idle));
    var w1 := TwoDevices(rows, accepted, UNUSED.(phase := Pushing({})), Edits(FIRST, Idle));
    assert DirtyIds(EMPTY) == {};
    assert Apply(key, w0, BeginSync(0)) == w1;
    assert [item][1..] == [];
    assert MergePulled(EMPTY, key, [item]) == Merge(true, Holding(FIRST, Meta(1, false)), 1);
    PullIsARun(key, w1, 0, [item]);
    RunSteps(key, w0, BeginSync(0), [SendPull(0), ReceivePull(0, [item], true)]);
  }

  lemma RecreationDiverges(key: Bytes)
    ensures Run(key, Between(key), RECREATED) == Diverged(key)
  {
    var a := Device(Holding(FIRST, Meta(1, false)), Holding(FIRST, Meta(1, false)), Idle);
    var w1 := TwoDevices(map[], map[], a, Edits(FIRST, Idle));
    var w2 := TwoDevices(map[], map[], a, Edits(SECOND, Idle));
    var w3 := TwoDevices(map[], map[], a, Edits(SECOND, Pushing({"x"})));
    var w4 := TwoDevices(RowOf(key, SECOND), map["x" := [SECOND]], a, Edits(SECOND, PushSent("x", {}, Accepted(1))));
    var b := Device(Holding(SECOND, Meta(1, false)), Holding(SECOND, Meta(0, true)), Pushing({}));
    var w5 := TwoDevices(RowOf(key, SECOND), map["x" := [SECOND]], a, b);
    assert RowOf(key, FIRST) - {"x"} == map[] && map["x" := [FIRST]] - {"x"} == map[];
    assert Apply(key, Between(key), DeleteRow("x")) == w1;
    assert Apply(key, w1, EditItem(1, "x", "b", true)) == w2 by { EditsX(); }
    assert Apply(key, w2, BeginSync(1)) == w3 by { DirtyX(SECOND); }
    assert Apply(key, w3, SendPush(1, "x")) == w4 by { SendsX(key, SECOND, w3.devices[1]); }
    assert Apply(key, w4, ReceivePush(1)) == w5 by {
      assert map["x" := Meta(0, true)]["x" := Meta(1, false)] == map["x" := Meta(1, false)];
    }
    RunSteps(key, Between(key), DeleteRow("x"), RECREATED[1..]);
    RunSteps(key, w1, EditItem(1, "x", "b", true), [BeginSync(1), SendPush(1, "x"), ReceivePush(1), FailSync(1)]);
    RunSteps(key, w2, BeginSync(1), [SendPush(1, "x"), ReceivePush(1), FailSync(1)]);
    RunSteps(key, w3, SendPush(1, "x"), [ReceivePush(1), FailSync(1)]);
    RunSteps(key, w4, ReceivePush(1), [FailSync(1)]);
    RunOne(key, w5, FailSync(1));
  }

  /**
   * A row is taken while its reply is lost, another device pulls it, it is
   * deleted, and the first device edits and pushes what it still believes to
   * be brand new: version 1 now names two different items, each clean on a device.
   */
  lemma OneVersionNamesTwoItems(key: Bytes)
    ensures Run(key, Fresh({0, 1}), PUSHED_UNHEARD + (Pulled(key) + RECREATED)) == Diverged(key)
  {
    assert Fresh({0, 1}) == TwoDevices(map[], map[], UNUSED, UNUSED);
    PushIsUnheard(key);
    PullIsHeard(key);
    RecreationDiverges(key);
    var w := TwoDevices(RowOf(key, FIRST), map["x" := [FIRST]], UNUSED, Edits(FIRST, Idle));
    RunAppend(key, Fresh({0, 1}), PUSHED_UNHEARD, Pulled(key) + RECREATED);
    RunAppend(key, w, Pulled(key), RECREATED);
  }

  /** From there every quiet sync of either device is idle, so the two never meet again. */
  lemma TwoItemsStayApart(key: Bytes, d: nat, end: SyncRun)
    requires d == 0 || d == 1
    requires Paired(Diverged(key).devices[d].memory)
    requires SyncsTo(key, Diverged(key).devices[d].memory, Diverged(key).rows, [], end)
    ensures end == SyncRun(Done, Diverged(key).devices[d].memory, Diverged(key).rows, Summary(0, 0, 0))
    ensures Diverged(key).devices[0].memory.items["x"] != Diverged(key).devices[1].memory.items["x"]
  {
    CleanSyncIsIdle(key, Diverged(key).devices[d].memory, Diverged(key).rows, end);
  }
}
