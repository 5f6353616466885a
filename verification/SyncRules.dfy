/**
 * The server's optimistic-concurrency rule and what it guarantees over every
 * sequence of requests to one user's rows.
 */
module SyncRules {
  import opened Common

  type Id = string

  datatype Row<+C> = Row(ciphertext: C, version: int)

  datatype Decision = Create(newVersion: int) | Update(newVersion: int) | Reject(serverVersion: int)

  datatype PushOutcome<+C> =
    | Accepted(version: int)
    | Conflict(serverVersion: int, server: Option<Row<C>>)

  /** One request that can change rows. */
  datatype Request<+C> =
    | Put(id: Id, ciphertext: C, base: Option<int>)
    | Remove(id: Id)

  /** What the server's history records about one id. */
  datatype Event<+C> =
    | Wrote(id: Id, version: int, base: Option<int>, ciphertext: C)
    | Removed(id: Id)

  datatype Server<C> = Server(rows: map<Id, Row<C>>, history: seq<Event<C>>)

  function ResolvePush(current: Option<int>, base: Option<int>): Decision {
    match current
    case None => if base.None? then Create(1) else Reject(0)
    case Some(version) => if base == Some(version) then Update(version + 1) else Reject(version)
  }

  function CurrentVersion<C>(rows: map<Id, Row<C>>, id: Id): Option<int> {
    if id in rows then Some(rows[id].version) else None
  }

  /** One push: the rows after it, and the answer sent back. */
  function Push<C>(rows: map<Id, Row<C>>, id: Id, ciphertext: C, base: Option<int>): (map<Id, Row<C>>, PushOutcome<C>) {
    match ResolvePush(CurrentVersion(rows, id), base)
    case Reject(serverVersion) => (rows, Conflict(serverVersion, if id in rows then Some(rows[id]) else None))
    case Create(version) => (rows[id := Row(ciphertext, version)], Accepted(version))
    case Update(version) => (rows[id := Row(ciphertext, version)], Accepted(version))
  }

  /** A request served with the history it leaves behind. */
  function Serve<C>(s: Server<C>, request: Request<C>): Server<C> {
    match request
    case Remove(id) => Server(s.rows - {id}, s.history + [Removed(id)])
    case Put(id, ciphertext, base) =>
      var (rows, outcome) := Push(s.rows, id, ciphertext, base);
      Server(rows, if outcome.Accepted? then s.history + [Wrote(id, outcome.version, base, ciphertext)] else s.history)
  }

  function ServeAll<C>(s: Server<C>, requests: seq<Request<C>>): Server<C>
    decreases |requests|
  {
    if requests == [] then s else ServeAll(Serve(s, requests[0]), requests[1..])
  }

  /** The newest event about `id`, if the history has one. */
  function Latest<C>(history: seq<Event<C>>, id: Id): Option<Event<C>>
    decreases |history|
  {
    if history == [] then None
    else if history[|history| - 1].id == id then Some(history[|history| - 1])
    else Latest(history[..|history| - 1], id)
  }

  /** `e` may come next: a write continues the newest write by one, or starts over at 1. */
  predicate Continues<C>(previous: Option<Event<C>>, e: Event<C>) {
    match e
    case Removed(_) => true
    case Wrote(_, version, base, _) =>
      if previous.Some? && previous.value.Wrote?
      then base == Some(previous.value.version) && version == previous.value.version + 1
      else base == None && version == 1
  }

  /** Every write in the history is the one successor of the write before it. */
  ghost predicate NoLostUpdates<C>(history: seq<Event<C>>) {
    forall j :: 0 <= j < |history| ==> Continues(Latest(history[..j], history[j].id), history[j])
  }

  /** The rows are what the newest event about each id says. */
  ghost predicate RowsMatch<C>(s: Server<C>) {
    forall id :: match Latest(s.history, id)
                 case Some(Wrote(_, version, _, ciphertext)) => id in s.rows && s.rows[id] == Row(ciphertext, version)
                 case _ => id !in s.rows
  }

  // A push is accepted exactly when it is based on what the server holds now,
  // and an accepted push raises the version by one.
  lemma PushAcceptsExactlySuccessors<C>(rows: map<Id, Row<C>>, id: Id, ciphertext: C, base: Option<int>)
    ensures var (after, outcome) := Push(rows, id, ciphertext, base);
            && (outcome.Accepted? <==> base == CurrentVersion(rows, id))
            && (outcome.Accepted? ==>
                  && outcome.version == (if base.Some? then base.value else 0) + 1
                  && after == rows[id := Row(ciphertext, outcome.version)])
            && (outcome.Conflict? ==>
                  && after == rows
                  && outcome.serverVersion == (if id in rows then rows[id].version else 0)
                  && outcome.server == (if id in rows then Some(rows[id]) else None))
  {
  }

  lemma LatestAppend<C>(history: seq<Event<C>>, e: Event<C>, id: Id)
    ensures Latest(history + [e], id) == if e.id == id then Some(e) else Latest(history, id)
  {
    assert (history + [e])[..|history|] == history;
  }

  lemma ServeKeepsOrder<C>(s: Server<C>, request: Request<C>)
    requires NoLostUpdates(s.history) && RowsMatch(s)
    ensures NoLostUpdates(Serve(s, request).history) && RowsMatch(Serve(s, request))
  {
    var t := Serve(s, request);
    if t.history != s.history {
      var e := t.history[|s.history|];
      assert t.history == s.history + [e];
      forall id ensures Latest(t.history, id) == if e.id == id then Some(e) else Latest(s.history, id) {
        LatestAppend(s.history, e, id);
      }
      assert RowsMatch(t) by {
        forall id ensures match Latest(t.history, id)
                          case Some(Wrote(_, version, _, ciphertext)) => id in t.rows &&
                            t.rows[id] == Row(ciphertext, version)
                          case _ => id !in t.rows
        {
          assert match Latest(s.history, id)
                 case Some(Wrote(_, version, _, ciphertext)) => id in s.rows && s.rows[id] == Row(ciphertext, version)
                 case _ => id !in s.rows;
        }
      }
      forall j | 0 <= j < |t.history| ensures Continues(Latest(t.history[..j], t.history[j].id), t.history[j]) {
        if j < |s.history| {
          assert t.history[..j] == s.history[..j];
        } else {
          assert t.history[..j] == s.history;
        }
      }
    }
  }

  lemma {:induction false} RunsKeepOrder<C>(s: Server<C>, requests: seq<Request<C>>)
    requires NoLostUpdates(s.history) && RowsMatch(s)
    ensures NoLostUpdates(ServeAll(s, requests).history) && RowsMatch(ServeAll(s, requests))
    decreases |requests|
  {
    if requests != [] {
      ServeKeepsOrder(s, requests[0]);
      RunsKeepOrder(Serve(s, requests[0]), requests[1..]);
    }
  }

  /**
   * No update is ever lost: over every sequence of pushes and deletions, each
   * accepted write of an id carries the next version and was based on exactly
   * the write before it, starting again at version 1 after a deletion.
   */
  lemma RunsLoseNoUpdates<C>(requests: seq<Request<C>>)
    ensures var s := ServeAll(Server(map[], []), requests);
            NoLostUpdates(s.history) && RowsMatch(s)
  {
    RunsKeepOrder(Server(map[], []), requests);
  }

  /** Two accepted writes of an id with no deletion of it between them never share a version. */
  lemma {:induction false} VersionsNameWrites<C>(history: seq<Event<C>>, i: int, j: int)
    requires NoLostUpdates(history)
    requires 0 <= i < j < |history| && history[i].Wrote? && history[j].Wrote? && history[i].id == history[j].id
    requires forall k :: i < k < j ==> history[k] != Removed(history[i].id)
    ensures history[i].version < history[j].version
    decreases j
  {
    var id := history[i].id;
    var k := LatestIndex(history, i, j, id);
    assert Continues(Latest(history[..j], id), history[j]);
    if k != i {
      VersionsNameWrites(history, i, k);
    }
  }

  /** Where the newest event about `id` before position `j` sits, given that position `i` is about it. */
  lemma {:induction false} LatestIndex<C>(history: seq<Event<C>>, i: int, j: int, id: Id) returns (k: int)
    requires 0 <= i < j <= |history| && history[i].id == id
    ensures i <= k < j && history[k].id == id && Latest(history[..j], id) == Some(history[k])
    decreases j
  {
    if history[j - 1].id == id {
      k := j - 1;
    } else {
      assert history[..j][..j - 1] == history[..j - 1];
      k := LatestIndex(history, i, j - 1, id);
    }
  }
}
