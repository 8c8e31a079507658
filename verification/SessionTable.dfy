// The daemon's session table, the events that change it, and what a replica
// holds when it replays a stretch of those events over a copy of the table.
module SessionTable {
  import opened Wrappers

  type SessionId = string

  datatype SessionStatus =
    | Exited
    | Queued
    | Unknown
    | Starting
    | Idle
    | Thinking
    | Working
    | RateLimited
    | NeedsYou
    | AwaitingInput
    | NeedsApproval

  datatype TaskProgress =
    | Percent(percent: nat)
    | Failed(failedAt: Option<nat>)
    | Indeterminate
    | Paused(pausedAt: Option<nat>)

  datatype Agent = Claude | Codex

  // since is the time the status began, in milliseconds; folder the label of the
  // working directory.
  datatype Session = Session(
    id: SessionId,
    name: string,
    agent: Agent,
    folder: string,
    status: SessionStatus,
    since: int,
    progress: Option<TaskProgress>)

  // Every event carries the whole row, or names the row that went away.
  datatype Event = Updated(session: Session) | Removed(id: SessionId)

  type Table = map<SessionId, Session>

  // ---------- The table and its log ----------

  function Subject(e: Event): SessionId {
    match e
    case Updated(session) => session.id
    case Removed(id) => id
  }

  function Apply(t: Table, e: Event): Table {
    match e
    case Updated(session) => t[session.id := session]
    case Removed(id) => t - {id}
  }

  function Replay(t: Table, log: seq<Event>): Table {
    if log == [] then t else Apply(Replay(t, log[..|log| - 1]), log[|log| - 1])
  }

  function Lookup(t: Table, id: SessionId): Option<Session> {
    if id in t then Some(t[id]) else None
  }

  // The daemon's table once it has logged its first n events.
  function TableAt(log: seq<Event>, n: nat): Table
    requires n <= |log|
  {
    Replay(map[], log[..n])
  }

  predicate Touched(log: seq<Event>, id: SessionId) {
    exists k :: 0 <= k < |log| && Subject(log[k]) == id
  }

  lemma ReplayStep(t: Table, log: seq<Event>, e: Event)
    ensures Replay(t, log + [e]) == Apply(Replay(t, log), e)
  {
    assert (log + [e])[..|log|] == log;
  }

  lemma {:induction false} ReplayAppends(t: Table, a: seq<Event>, b: seq<Event>)
    ensures Replay(t, a + b) == Replay(Replay(t, a), b)
    decreases |b|
  {
    if b == [] {
      assert a + b == a;
    } else {
      var rest := b[..|b| - 1];
      assert (a + b)[..|a + b| - 1] == a + rest;
      ReplayAppends(t, a, rest);
    }
  }

  // A stretch of log that never mentions a row leaves that row as it was.
  lemma {:induction false} UntouchedRow(t: Table, log: seq<Event>, id: SessionId)
    requires !Touched(log, id)
    ensures Lookup(Replay(t, log), id) == Lookup(t, id)
    decreases |log|
  {
    if log != [] {
      var rest := log[..|log| - 1];
      assert forall k :: 0 <= k < |rest| ==> rest[k] == log[k];
      assert Subject(log[|log| - 1]) != id;
      UntouchedRow(t, rest, id);
    }
  }

  // A stretch of log that does mention a row decides it, whatever was there.
  lemma {:induction false} TouchedRow(t: Table, u: Table, log: seq<Event>, id: SessionId)
    requires Touched(log, id)
    ensures Lookup(Replay(t, log), id) == Lookup(Replay(u, log), id)
    decreases |log|
  {
    var rest := log[..|log| - 1];
    if Subject(log[|log| - 1]) != id {
      var k :| 0 <= k < |log| && Subject(log[k]) == id;
      assert rest[k] == log[k];
      TouchedRow(t, u, rest, id);
    }
  }

  // What a replica holds for one row: it replayed events base..delivered over
  // the daemon's table as of point. A row an event mentioned is exactly the
  // daemon's row at delivered; any other row is still the snapshot's.
  lemma ReplicaRow(log: seq<Event>, base: nat, point: nat, delivered: nat, id: SessionId)
    requires base <= delivered <= |log| && point <= |log|
    ensures Lookup(Replay(TableAt(log, point), log[base..delivered]), id)
         == Lookup(TableAt(log, if Touched(log[base..delivered], id) then delivered else point), id)
  {
    var window := log[base..delivered];
    if Touched(window, id) {
      TouchedRow(TableAt(log, point), TableAt(log, base), window, id);
      assert log[..delivered] == log[..base] + window;
      ReplayAppends(map[], log[..base], window);
    } else {
      UntouchedRow(TableAt(log, point), window, id);
    }
  }

  lemma ReplicaRowConverges(log: seq<Event>, base: nat, point: nat, delivered: nat, id: SessionId)
    requires base <= point <= delivered <= |log|
    ensures Lookup(Replay(TableAt(log, point), log[base..delivered]), id) == Lookup(TableAt(log, delivered), id)
  {
    ReplicaRow(log, base, point, delivered, id);
    if !Touched(log[base..delivered], id) {
      var late := log[point..delivered];
      assert forall k :: 0 <= k < |late| ==> late[k] == log[base..delivered][point - base + k];
      UntouchedRow(TableAt(log, point), late, id);
      assert log[..delivered] == log[..point] + late;
      ReplayAppends(map[], log[..point], late);
    }
  }

  // Replaying from any base no later than the snapshot point reaches the
  // daemon's table as soon as the replica has caught up with that point. The
  // events replayed twice, and the ones the snapshot had not seen, both vanish.
  lemma ReplicaConverges(log: seq<Event>, base: nat, point: nat, delivered: nat)
    requires base <= point <= delivered <= |log|
    ensures Replay(TableAt(log, point), log[base..delivered]) == TableAt(log, delivered)
  {
    forall id { ReplicaRowConverges(log, base, point, delivered, id); }
    TablesAgree(Replay(TableAt(log, point), log[base..delivered]), TableAt(log, delivered));
  }

  lemma TablesAgree(t: Table, u: Table)
    requires forall id :: Lookup(t, id) == Lookup(u, id)
    ensures t == u
  {
    forall id
      ensures id in t <==> id in u
      ensures id in t ==> t[id] == u[id]
    {
      assert Lookup(t, id) == Lookup(u, id);
    }
  }

  // Buffering must start before the read. When it starts at base, later than
  // the snapshot point, the replica is right about a row exactly when the
  // events it never saw (point..base) left the row alone, or a later event it
  // did see settled it, or they happened to bring the row back to the value the
  // snapshot held. Without that, the row stays wrong: nothing repairs it.
  lemma LateBufferingRow(log: seq<Event>, point: nat, base: nat, delivered: nat, id: SessionId)
    requires point <= base <= delivered <= |log|
    ensures Lookup(Replay(TableAt(log, point), log[base..delivered]), id) == Lookup(TableAt(log, delivered), id)
       <==> Touched(log[base..delivered], id) || Lookup(TableAt(log, base), id) == Lookup(TableAt(log, point), id)
  {
    ReplicaRow(log, base, point, delivered, id);
    if !Touched(log[base..delivered], id) {
      UntouchedRow(TableAt(log, base), log[base..delivered], id);
      assert log[..delivered] == log[..base] + log[base..delivered];
      ReplayAppends(map[], log[..base], log[base..delivered]);
    }
  }

  // ---------- The table as a list of rows ----------

  predicate DistinctIds(rows: seq<Session>) {
    forall i, j :: 0 <= i < j < |rows| ==> rows[i].id != rows[j].id
  }

  function IndexOf(rows: seq<Session>, id: SessionId): (i: nat)
    ensures i <= |rows|
    ensures forall k :: 0 <= k < i ==> rows[k].id != id
    ensures i < |rows| ==> rows[i].id == id
  {
    if rows == [] then 0
    else if rows[0].id == id then 0
    else 1 + IndexOf(rows[1..], id)
  }

  // Replace the row with this id where it stands, or append a new one.
  function Upsert(rows: seq<Session>, session: Session): seq<Session> {
    var i := IndexOf(rows, session.id);
    if i == |rows| then rows + [session] else rows[i := session]
  }

  function Without(rows: seq<Session>, id: SessionId): (kept: seq<Session>)
    ensures forall r :: r in kept <==> r in rows && r.id != id
  {
    if rows == [] then []
    else if rows[0].id == id then Without(rows[1..], id)
    else [rows[0]] + Without(rows[1..], id)
  }

  function TableOf(rows: seq<Session>): Table
    requires DistinctIds(rows)
  {
    map r | r in rows :: r.id := r
  }

  // An update leaves every row at its place, and a row that is new comes last.
  lemma UpsertKeepsPlaces(rows: seq<Session>, session: Session, k: nat)
    requires DistinctIds(rows)
    ensures var after := Upsert(rows, session);
            && |after| == |rows| + (if exists r :: r in rows && r.id == session.id then 0 else 1)
            && (k < |rows| ==> after[k] == if rows[k].id == session.id then session else rows[k])
            && (|after| > |rows| ==> after[|rows|] == session)
  {
  }

  // A removal leaves the order of the others as it is.
  lemma {:induction false} WithoutAppends(a: seq<Session>, b: seq<Session>, id: SessionId)
    ensures Without(a + b, id) == Without(a, id) + Without(b, id)
    decreases |a|
  {
    if a == [] {
      assert a + b == b;
    } else {
      assert (a + b)[1..] == a[1..] + b;
      WithoutAppends(a[1..], b, id);
    }
  }

  lemma UpsertKeepsDistinct(rows: seq<Session>, session: Session)
    requires DistinctIds(rows)
    ensures DistinctIds(Upsert(rows, session))
  {
  }

  lemma UpsertRows(rows: seq<Session>, session: Session, r: Session)
    requires DistinctIds(rows)
    ensures r in Upsert(rows, session) <==> r == session || (r in rows && r.id != session.id)
  {
    var next, i := Upsert(rows, session), IndexOf(rows, session.id);
    assert next[i] == session;
    if r in rows && r.id != session.id {
      var k :| 0 <= k < |rows| && rows[k] == r;
      assert next[k] == r;
    }
  }

  lemma UpsertIsUpdate(rows: seq<Session>, session: Session)
    requires DistinctIds(rows)
    ensures DistinctIds(Upsert(rows, session))
    ensures TableOf(Upsert(rows, session)) == Apply(TableOf(rows), Updated(session))
  {
    UpsertKeepsDistinct(rows, session);
    var left, right := TableOf(Upsert(rows, session)), Apply(TableOf(rows), Updated(session));
    hide Upsert, DistinctIds;
    forall id
      ensures id in left <==> id in right
      ensures id in left ==> left[id] == right[id]
    {
      if id in left {
        UpsertRows(rows, session, left[id]);
      }
      if id in right {
        UpsertRows(rows, session, right[id]);
      }
    }
  }

  lemma {:induction false} WithoutKeepsDistinct(rows: seq<Session>, id: SessionId)
    requires DistinctIds(rows)
    ensures DistinctIds(Without(rows, id))
    decreases |rows|
  {
    if rows != [] {
      WithoutKeepsDistinct(rows[1..], id);
      assert forall r :: r in Without(rows[1..], id) ==> r in rows[1..];
    }
  }

  lemma {:induction false} WithoutIsRemoval(rows: seq<Session>, id: SessionId)
    requires DistinctIds(rows)
    ensures DistinctIds(Without(rows, id))
    ensures TableOf(Without(rows, id)) == Apply(TableOf(rows), Removed(id))
  {
    WithoutKeepsDistinct(rows, id);
  }
}
