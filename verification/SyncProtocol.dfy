/**
 * Any number of devices and one server, one request per step. Other devices'
 * steps fall between any two requests of a sync, a request or its reply can be
 * lost, and a device can stop at any point and restart from its disk.
 */
module SyncProtocol {
  import opened Common
  import opened Crypto
  import opened SyncRules
  import opened VaultService
  import opened Replicas

  datatype Phase =
    | Idle
    | Pushing(todo: set<Id>)                                              // between two pushes
    | PushSent(id: Id, todo: set<Id>, outcome: PushOutcome<Cipher>)       // served, the answer under way
    | PullSent(list: Rows)                                                // served, the rows under way

  /** A running app: its memory, the last state it wrote to disk, and where its sync is. */
  datatype Device = Device(memory: Replica, disk: Replica, phase: Phase)

  /** `accepted[id][v - 1]` is the item the server accepted as version `v` of `id`. */
  datatype World = World(rows: Rows, accepted: map<Id, seq<VaultItem>>, devices: map<nat, Device>)

  datatype Action =
    | AddItem(d: nat, item: VaultItem, saved: bool)
    | EditItem(d: nat, id: Id, body: string, saved: bool)
    | BeginSync(d: nat)
    | SendPush(d: nat, id: Id)
    | ReceivePush(d: nat)
    | SendPull(d: nat)
    | ReceivePull(d: nat, list: seq<RemoteItem<Cipher>>, saved: bool)
    | FailSync(d: nat)      // a request or a reply is lost, so `sync` throws
    | Restart(d: nat)       // crash or lock, then unlock from disk
    | UnlockAgain(d: nat)   // unlock while unlocked: the disk is laid over memory
    | DeleteRow(id: Id)

  function DirtyIds(r: Replica): set<Id> {
    set id | id in r.meta && r.meta[id].dirty
  }

  /** Memory changed; the write to disk may or may not have happened. */
  function Store(device: Device, memory: Replica, saved: bool): Device {
    Device(memory, if saved then memory else device.disk, Idle)
  }

  function Known(accepted: map<Id, seq<VaultItem>>, id: Id): nat {
    if id in accepted then |accepted[id]| else 0
  }

  function Append(accepted: map<Id, seq<VaultItem>>, id: Id, item: VaultItem): map<Id, seq<VaultItem>> {
    accepted[id := (if id in accepted then accepted[id] else []) + [item]]
  }

  /** What the app's code does on its device at one step; a step that cannot happen changes nothing. */
  ghost function Act(key: Bytes, rows: Rows, device: Device, a: Action): Device
    requires !a.DeleteRow?
  {
    match a
    case AddItem(_, item, saved) =>
      if device.phase.Idle? && item.id !in device.memory.meta then Store(device, Add(device.memory, item), saved)
        else device
    case EditItem(_, id, body, saved) =>
      if device.phase.Idle? && id in device.memory.items && id in device.memory.meta
      then Store(device, Edit(device.memory, id, body), saved) else device
    case BeginSync(_) =>
      if device.phase.Idle? then device.(phase := Pushing(DirtyIds(device.memory))) else device
    case SendPush(_, id) =>
      if CanPush(device, id)
      then device.(phase := PushSent(id, device.phase.todo - {id}, PushFrom(key, rows, device, id).1)) else device
    case ReceivePush(_) =>
      if !device.phase.PushSent? then device
      else (
        match AfterPush(device.memory, key, device.phase.id, device.phase.outcome)
        case None => device.(phase := Idle)
        case Some(memory) => device.(memory := memory, phase := Pushing(device.phase.todo)))
    case SendPull(_) =>
      if device.phase == Pushing({}) then device.(phase := PullSent(rows)) else device
    case ReceivePull(_, list, saved) =>
      if device.phase.PullSent? && Enumerates(list, device.phase.list) then
        var merge := MergePulled(device.memory, key, list);
        if merge.ok then Store(device, merge.replica, saved) else device.(memory := merge.replica, phase := Idle)
      else device
    case FailSync(_) => device.(phase := Idle)
    case Restart(_) => Device(device.disk, device.disk, Idle)
    case UnlockAgain(_) =>
      if device.phase.Idle? then device.(memory := Overlay(device.memory, device.disk)) else device
  }

  predicate CanPush(device: Device, id: Id) {
    && device.phase.Pushing? && id in device.phase.todo
    && id in device.memory.items && id in device.memory.meta
  }

  function PushFrom(key: Bytes, rows: Rows, device: Device, id: Id): (Rows, PushOutcome<Cipher>)
    requires CanPush(device, id)
  {
    Push(rows, id, Encrypt(key, device.memory.items[id]), Base(device.memory.meta[id]))
  }

  ghost function Apply(key: Bytes, w: World, a: Action): World {
    if a.DeleteRow? then w.(rows := w.rows - {a.id}, accepted := w.accepted - {a.id})
    else if a.d !in w.devices then w
    else
      var device := w.devices[a.d];
      var moved := w.(devices := w.devices[a.d := Act(key, w.rows, device, a)]);
      if a.SendPush? && CanPush(device, a.id) then
        var (rows, outcome) := PushFrom(key, w.rows, device, a.id);
        moved.(rows := rows, accepted := if outcome.Accepted? then Append(w.accepted, a.id, device.memory.items[a.id])
          else w.accepted)
      else moved
  }

  ghost function Run(key: Bytes, w: World, actions: seq<Action>): World
    decreases |actions|
  {
    if actions == [] then w else Run(key, Apply(key, w, actions[0]), actions[1..])
  }

  /** An empty server and any number of fresh devices. */
  function Fresh(devices: set<nat>): World {
    World(map[], map[], map d | d in devices :: Device(EMPTY, EMPTY, Idle))
  }

  ghost predicate NoDeletes(actions: seq<Action>) {
    forall i :: 0 <= i < |actions| ==> !actions[i].DeleteRow?
  }

  // -------- the cross-machine invariant --------

  /** This row is what the server accepted as some version of `id`. */
  ghost predicate RowOk(key: Bytes, accepted: map<Id, seq<VaultItem>>, id: Id, row: Row<Cipher>) {
    && 1 <= row.version <= Known(accepted, id)
    && row.ciphertext == Sealed(key, accepted[id][row.version - 1])
  }

  /** The rows are the newest accepted versions. */
  ghost predicate ServerOk(key: Bytes, rows: Rows, accepted: map<Id, seq<VaultItem>>) {
    && rows.Keys == accepted.Keys
    && (forall id :: id in rows ==> RowOk(key, accepted, id, rows[id]) && rows[id].version == |accepted[id]|)
    && FiledHistory(accepted)
  }

  ghost predicate FiledHistory(accepted: map<Id, seq<VaultItem>>) {
    forall id, i :: id in accepted && 0 <= i < |accepted[id]| ==> accepted[id][i].id == id
  }

  /**
   * A device never knows a version the server has not reached, and each clean
   * entry at version `v` holds exactly what the server accepted as version `v`.
   */
  ghost predicate Faithful(accepted: map<Id, seq<VaultItem>>, r: Replica) {
    && Paired(r) && Filed(r)
    && forall id :: id in r.meta ==>
         && 0 <= r.meta[id].version <= Known(accepted, id)
         && (!r.meta[id].dirty ==> r.meta[id].version >= 1 && r.items[id] == accepted[id][r.meta[id].version - 1])
  }

  /** An answer under way is still about what the server accepted. */
  ghost predicate OutcomeOk(key: Bytes, accepted: map<Id, seq<VaultItem>>, item: VaultItem,
                            outcome: PushOutcome<Cipher>) {
    match outcome
    case Accepted(version) => 1 <= version <= Known(accepted, item.id) && accepted[item.id][version - 1] == item
    case Conflict(_, server) => server.Some? && RowOk(key, accepted, item.id, server.value)
  }

  ghost predicate PhaseOk(key: Bytes, accepted: map<Id, seq<VaultItem>>, device: Device) {
    match device.phase
    case Idle => true
    case Pushing(todo) => todo == DirtyIds(device.memory)
    case PushSent(id, todo, outcome) =>
      && id in device.memory.items && id !in todo && todo + {id} == DirtyIds(device.memory)
      && OutcomeOk(key, accepted, device.memory.items[id], outcome)
    case PullSent(list) =>
      && DirtyIds(device.memory) == {}
      && forall id :: id in list ==> RowOk(key, accepted, id, list[id])
  }

  ghost predicate DeviceOk(key: Bytes, accepted: map<Id, seq<VaultItem>>, device: Device) {
    && Faithful(accepted, device.memory)
    && Faithful(accepted, device.disk)
    && PhaseOk(key, accepted, device)
  }

  ghost predicate Sound(key: Bytes, w: World) {
    && ServerOk(key, w.rows, w.accepted)
    && forall d :: d in w.devices ==> DeviceOk(key, w.accepted, w.devices[d])
  }

  /** The server only ever adds to what it has accepted. */
  ghost predicate Extends(accepted: map<Id, seq<VaultItem>>, later: map<Id, seq<VaultItem>>) {
    forall id :: id in accepted ==> id in later && accepted[id] <= later[id]
  }

  lemma OkSurvives(key: Bytes, accepted: map<Id, seq<VaultItem>>, later: map<Id, seq<VaultItem>>, device: Device)
    requires Extends(accepted, later) && DeviceOk(key, accepted, device)
    ensures DeviceOk(key, later, device)
  {
  }

  lemma AddKeepsFaith(accepted: map<Id, seq<VaultItem>>, r: Replica, item: VaultItem)
    requires Faithful(accepted, r)
    ensures Faithful(accepted, Add(r, item))
  {
  }

  lemma EditKeepsFaith(accepted: map<Id, seq<VaultItem>>, r: Replica, id: Id, body: string)
    requires Faithful(accepted, r) && id in r.meta
    ensures Faithful(accepted, Edit(r, id, body))
  {
  }

  lemma OverlayKeepsFaith(accepted: map<Id, seq<VaultItem>>, r: Replica, over: Replica)
    requires Faithful(accepted, r) && Faithful(accepted, over)
    ensures Faithful(accepted, Overlay(r, over))
  {
  }

  lemma AdoptKeepsFaith(key: Bytes, accepted: map<Id, seq<VaultItem>>, r: Replica, id: Id, row: Row<Cipher>)
    requires Faithful(accepted, r) && RowOk(key, accepted, id, row)
    requires forall i :: 0 <= i < Known(accepted, id) ==> accepted[id][i].id == id
    ensures Faithful(accepted, Adopt(r, id, row.ciphertext.plain, row.version))
    ensures DirtyIds(Adopt(r, id, row.ciphertext.plain, row.version)) == DirtyIds(r) - {id}
  {
    AdoptedIsClean(r, id, row.ciphertext.plain, row.version);
  }

  lemma AdoptedIsClean(r: Replica, id: Id, item: VaultItem, version: int)
    ensures DirtyIds(Adopt(r, id, item, version)) == DirtyIds(r) - {id}
  {
  }

  lemma {:induction false} MergeKeepsFaith(key: Bytes, accepted: map<Id, seq<VaultItem>>, r: Replica,
                                           list: seq<RemoteItem<Cipher>>)
    requires Faithful(accepted, r)
    requires forall i :: 0 <= i < |list| ==> RowOk(key, accepted, list[i].id, list[i].row)
    requires FiledHistory(accepted)
    ensures MergePulled(r, key, list).ok && Faithful(accepted, MergePulled(r, key, list).replica)
    decreases |list|
  {
    if list != [] {
      var next := if IsNews(r, list[0]) then Adopt(r, list[0].id, list[0].row.ciphertext.plain, list[0].row.version)
        else r;
      AdoptKeepsFaith(key, accepted, r, list[0].id, list[0].row);
      MergeKeepsFaith(key, accepted, next, list[1..]);
    }
  }

  lemma AcceptKeepsServer(key: Bytes, rows: Rows, accepted: map<Id, seq<VaultItem>>, item: VaultItem)
    requires ServerOk(key, rows, accepted)
    ensures var later := Append(accepted, item.id, item);
            && Extends(accepted, later)
            && ServerOk(key, rows[item.id := Row(Sealed(key, item), Known(accepted, item.id) + 1)], later)
  {
    var before := if item.id in accepted then accepted[item.id] else [];
    assert before <= before + [item];
    var later: map<Id, seq<VaultItem>> := Append(accepted, item.id, item);
    forall id: Id, i: int | id in later && 0 <= i < |later[id]| ensures later[id][i].id == id {
      if id == item.id && i < |before| {
        assert later[id][i] == before[i];
      }
    }
  }

  /** A push that is served extends what the server accepted, or answers with what it holds. */
  lemma PushKeepsServer(key: Bytes, rows: Rows, accepted: map<Id, seq<VaultItem>>, item: VaultItem, m: Meta)
    requires ServerOk(key, rows, accepted) && 0 <= m.version <= Known(accepted, item.id)
    ensures var (after, outcome) := Push(rows, item.id, Encrypt(key, item), Base(m));
            var later := if outcome.Accepted? then Append(accepted, item.id, item) else accepted;
            && ServerOk(key, after, later)
            && Extends(accepted, later)
            && OutcomeOk(key, later, item, outcome)
  {
    PushAcceptsExactlySuccessors(rows, item.id, Encrypt(key, item), Base(m));
    AcceptKeepsServer(key, rows, accepted, item);
  }

  lemma ReceivedPushKeepsDevice(key: Bytes, accepted: map<Id, seq<VaultItem>>, device: Device)
    requires DeviceOk(key, accepted, device) && device.phase.PushSent?
    requires FiledHistory(accepted)
    ensures var memory := AfterPush(device.memory, key, device.phase.id, device.phase.outcome);
            memory.Some? && DeviceOk(key, accepted,
              device.(memory := memory.value, phase := Pushing(device.phase.todo)))
  {
    var id := device.phase.id;
    match device.phase.outcome {
      case Accepted(version) =>
        var memory := device.memory.(meta := device.memory.meta[id := Meta(version, false)]);
        assert DirtyIds(memory) == DirtyIds(device.memory) - {id};
      case Conflict(_, server) =>
        AdoptKeepsFaith(key, accepted, device.memory, id, server.value);
    }
  }

  lemma StepKeepsDevice(key: Bytes, w: World, a: Action)
    requires Sound(key, w) && !a.DeleteRow? && !a.SendPush? && a.d in w.devices
    ensures DeviceOk(key, w.accepted, Act(key, w.rows, w.devices[a.d], a))
  {
    var device := w.devices[a.d];
    match a {
      case AddItem(_, item, saved) => AddKeepsFaith(w.accepted, device.memory, item);
      case EditItem(_, id, body, saved) =>
        if id in device.memory.meta { EditKeepsFaith(w.accepted, device.memory, id, body); }
      case UnlockAgain(_) => OverlayKeepsFaith(w.accepted, device.memory, device.disk);
      case ReceivePush(_) =>
        if device.phase.PushSent? { ReceivedPushKeepsDevice(key, w.accepted, device); }
      case ReceivePull(_, list, saved) =>
        if device.phase.PullSent? && Enumerates(list, device.phase.list) {
          MergeKeepsFaith(key, w.accepted, device.memory, list);
        }
      case SendPull(_) =>
      case BeginSync(_) =>
      case FailSync(_) =>
      case Restart(_) =>
    }
  }

  lemma SentPushKeepsDevice(key: Bytes, accepted: map<Id, seq<VaultItem>>, device: Device, id: Id,
                            outcome: PushOutcome<Cipher>)
    requires DeviceOk(key, accepted, device) && CanPush(device, id)
    requires OutcomeOk(key, accepted, device.memory.items[id], outcome)
    ensures DeviceOk(key, accepted, device.(phase := PushSent(id, device.phase.todo - {id}, outcome)))
  {
    var todo := device.phase.todo;
    assert (todo - {id}) + {id} == todo;
  }

  lemma SentPushApplies(key: Bytes, w: World, d: nat, id: Id)
    requires d in w.devices && CanPush(w.devices[d], id)
    ensures var device := w.devices[d];
            var (rows, outcome) := PushFrom(key, w.rows, device, id);
            Apply(key, w, SendPush(d, id)) ==
            World(rows, if outcome.Accepted? then Append(w.accepted, id, device.memory.items[id]) else w.accepted,
                  w.devices[d := device.(phase := PushSent(id, device.phase.todo - {id}, outcome))])
  {
  }

  lemma SentPushIsSound(key: Bytes, w: World, d: nat, id: Id)
    requires Sound(key, w) && d in w.devices && CanPush(w.devices[d], id)
    ensures Sound(key, Apply(key, w, SendPush(d, id)))
    ensures Extends(w.accepted, Apply(key, w, SendPush(d, id)).accepted)
  {
    var device := w.devices[d];
    var after := Apply(key, w, SendPush(d, id));
    SentPushApplies(key, w, d, id);
    assert DeviceOk(key, w.accepted, device) && device.memory.items[id].id == id;
    PushKeepsServer(key, w.rows, w.accepted, device.memory.items[id], device.memory.meta[id]);
    forall e | e in after.devices ensures DeviceOk(key, after.accepted, after.devices[e]) {
      OkSurvives(key, w.accepted, after.accepted, w.devices[e]);
      if e == d {
        SentPushKeepsDevice(key, after.accepted, device, id, PushFrom(key, w.rows, device, id).1);
      }
    }
  }

  lemma StepIsSound(key: Bytes, w: World, a: Action)
    requires Sound(key, w) && !a.DeleteRow?
    ensures Sound(key, Apply(key, w, a))
    ensures Extends(w.accepted, Apply(key, w, a).accepted)
  {
    if a.d in w.devices {
      if a.SendPush? {
        if CanPush(w.devices[a.d], a.id) {
          SentPushIsSound(key, w, a.d, a.id);
        } else {
          assert Apply(key, w, a) == w.(devices := w.devices[a.d := w.devices[a.d]]);
        }
      } else {
        StepKeepsDevice(key, w, a);
      }
    }
  }

  // -------- deletions --------

  /** No server ever answered this device about `id`: it has no such item, or one only added so far. */
  predicate NeverAnswered(r: Replica, id: Id) {
    id in r.meta ==> r.meta[id] == Meta(0, true)
  }

  /** Nothing on the device or on its way to it comes from a row of `id`. */
  predicate Unaware(device: Device, id: Id) {
    && NeverAnswered(device.memory, id) && NeverAnswered(device.disk, id)
    && !(device.phase.PushSent? && device.phase.id == id)
    && !(device.phase.PullSent? && id in device.phase.list)
  }

  /** The row of `id` is still news to every device. */
  predicate Unnoticed(w: World, id: Id) {
    forall d :: d in w.devices ==> Unaware(w.devices[d], id)
  }

  lemma ForgottenReplica(accepted: map<Id, seq<VaultItem>>, r: Replica, id: Id)
    requires Faithful(accepted, r)
    ensures Faithful(accepted - {id}, r) <==> NeverAnswered(r, id)
  {
    assert Known(accepted - {id}, id) == 0;
    forall other | other in r.meta && other != id
      ensures Known(accepted - {id}, other) == Known(accepted, other)
      ensures !r.meta[other].dirty ==> r.items[other] == (accepted - {id})[other][r.meta[other].version - 1]
    {
    }
  }

  lemma ForgottenPhase(key: Bytes, accepted: map<Id, seq<VaultItem>>, device: Device, id: Id)
    requires DeviceOk(key, accepted, device)
    ensures PhaseOk(key, accepted - {id}, device) <==>
            !(device.phase.PushSent? && device.phase.id == id) && !(device.phase.PullSent? && id in device.phase.list)
  {
    match device.phase {
      case Idle =>
      case Pushing(_) =>
      case PushSent(sent, _, outcome) =>
        assert device.memory.items[sent].id == sent;
      case PullSent(list) =>
        if id in list { assert !RowOk(key, accepted - {id}, id, list[id]); }
        forall other | other in list && other != id ensures RowOk(key, accepted - {id}, other, list[other]) {
          assert RowOk(key, accepted, other, list[other]);
        }
    }
  }

  lemma ForgottenServer(key: Bytes, rows: Rows, accepted: map<Id, seq<VaultItem>>, id: Id)
    requires ServerOk(key, rows, accepted)
    ensures ServerOk(key, rows - {id}, accepted - {id})
  {
    forall other | other in rows && other != id ensures RowOk(key, accepted - {id}, other, rows[other]) {
      assert RowOk(key, accepted, other, rows[other]);
    }
  }

  /** A deletion keeps the invariant exactly while no device has heard of the row. */
  lemma DeletionIsSoundExactly(key: Bytes, w: World, id: Id)
    requires Sound(key, w)
    ensures Sound(key, Apply(key, w, DeleteRow(id))) <==> Unnoticed(w, id)
  {
    ForgottenServer(key, w.rows, w.accepted, id);
    forall d | d in w.devices ensures DeviceOk(key, w.accepted - {id}, w.devices[d]) <==> Unaware(w.devices[d], id) {
      ForgottenReplica(w.accepted, w.devices[d].memory, id);
      ForgottenReplica(w.accepted, w.devices[d].disk, id);
      ForgottenPhase(key, w.accepted, w.devices[d], id);
    }
  }

  // -------- whole runs --------

  /** Each deletion of the run comes before any device has heard of the row. */
  ghost predicate Cautious(key: Bytes, w: World, actions: seq<Action>)
    decreases |actions|
  {
    actions != [] ==>
      && (actions[0].DeleteRow? ==> Unnoticed(w, actions[0].id))
      && Cautious(key, Apply(key, w, actions[0]), actions[1..])
  }

  /** The invariant holds now and after every step of the run. */
  ghost predicate SoundThroughout(key: Bytes, w: World, actions: seq<Action>)
    decreases |actions|
  {
    Sound(key, w) && (actions != [] ==> SoundThroughout(key, Apply(key, w, actions[0]), actions[1..]))
  }

  lemma {:induction false} WithoutDeletesIsCautious(key: Bytes, w: World, actions: seq<Action>)
    requires NoDeletes(actions)
    ensures Cautious(key, w, actions)
    decreases |actions|
  {
    if actions != [] {
      WithoutDeletesIsCautious(key, Apply(key, w, actions[0]), actions[1..]);
    }
  }

  lemma {:induction false} SoundThroughoutEnds(key: Bytes, w: World, actions: seq<Action>)
    requires SoundThroughout(key, w, actions)
    ensures Sound(key, Run(key, w, actions))
    decreases |actions|
  {
    if actions != [] {
      SoundThroughoutEnds(key, Apply(key, w, actions[0]), actions[1..]);
    }
  }

  lemma {:induction false} SoundThroughoutExactly(key: Bytes, w: World, actions: seq<Action>)
    requires Sound(key, w)
    ensures SoundThroughout(key, w, actions) <==> Cautious(key, w, actions)
    decreases |actions|
  {
    if actions != [] {
      var next := Apply(key, w, actions[0]);
      if actions[0].DeleteRow? {
        DeletionIsSoundExactly(key, w, actions[0].id);
      } else {
        StepIsSound(key, w, actions[0]);
      }
      if Sound(key, next) {
        SoundThroughoutExactly(key, next, actions[1..]);
      }
    }
  }

  lemma SoundRuns(key: Bytes, w: World, actions: seq<Action>)
    requires Sound(key, w) && Cautious(key, w, actions)
    ensures Sound(key, Run(key, w, actions))
  {
    SoundThroughoutExactly(key, w, actions);
    SoundThroughoutEnds(key, w, actions);
  }

  /**
   * The cross-machine invariant: of every run of any number of devices, however
   * their requests interleave, fail or are cut off by a crash, memory and disk
   * of every device stay faithful to the server throughout if and only if each
   * deletion comes before any device has heard of the row it deletes.
   */
  lemma EveryRunIsSound(key: Bytes, devices: set<nat>, actions: seq<Action>)
    ensures SoundThroughout(key, Fresh(devices), actions) <==> Cautious(key, Fresh(devices), actions)
    ensures NoDeletes(actions) ==> Cautious(key, Fresh(devices), actions)
    ensures Cautious(key, Fresh(devices), actions) ==> Sound(key, Run(key, Fresh(devices), actions))
  {
    SoundThroughoutExactly(key, Fresh(devices), actions);
    if NoDeletes(actions) {
      WithoutDeletesIsCautious(key, Fresh(devices), actions);
    }
    if Cautious(key, Fresh(devices), actions) {
      SoundRuns(key, Fresh(devices), actions);
    }
  }
}
