// The window's replica of the session table: live events, the buffer kept
// while a snapshot read is in flight, and the overwrite-then-replay that lands
// the snapshot. SessionView is the window's state object; World puts it beside
// the daemon and an in-order, lossless event channel.
module SnapshotCoordinator {
  import opened Wrappers
  import opened SessionTable

  datatype Client = Client(
    rows: seq<Session>,
    focused: Option<SessionId>,
    loading: bool,
    buffer: seq<Event>,
    toasts: map<string, SessionId>)

  function ApplyEvent(c: Client, e: Event): Client {
    match e
    case Updated(session) => c.(rows := Upsert(c.rows, session))
    case Removed(id) =>
      c.(rows := Without(c.rows, id),
         focused := if c.focused == Some(id) then None else c.focused,
         toasts := ToastsWithout(c.toasts, id))
  }

  function ToastsWithout(toasts: map<string, SessionId>, id: SessionId): map<string, SessionId> {
    map key | key in toasts && toasts[key] != id :: toasts[key]
  }

  function ApplyEvents(c: Client, es: seq<Event>): Client {
    if es == [] then c else ApplyEvent(ApplyEvents(c, es[..|es| - 1]), es[|es| - 1])
  }

  lemma NoEvents(c: Client, es: seq<Event>)
    ensures ApplyEvents(c, es[..0]) == c
  {
  }

  lemma OneMoreEvent(c: Client, es: seq<Event>, i: nat)
    requires i < |es|
    ensures ApplyEvents(c, es[..i + 1]) == ApplyEvent(ApplyEvents(c, es[..i]), es[i])
  {
    assert es[..i + 1][..i] == es[..i];
  }

  // A pushed event is buffered while a read is in flight, and applied at once.
  function Receive(c: Client, e: Event): Client {
    ApplyEvent(if c.loading then c.(buffer := c.buffer + [e]) else c, e)
  }

  function Begin(c: Client): Client {
    c.(loading := true, buffer := [])
  }

  function Land(c: Client, rows: seq<Session>, focused: Option<SessionId>): Client {
    ApplyEvents(c.(rows := rows, focused := focused, buffer := []), c.buffer).(loading := false)
  }

  function Abandon(c: Client): Client {
    c.(loading := false)
  }

  class SessionView {
    var sessions: seq<Session>
    var focused: Option<SessionId>
    var snapshotLoading: bool
    var snapshotEvents: seq<Event>
    var attentionToasts: map<string, SessionId>

    ghost function Value(): Client
      reads this
    {
      Client(sessions, focused, snapshotLoading, snapshotEvents, attentionToasts)
    }

    constructor ()
      ensures Value() == Client([], None, true, [], map[])
    {
      sessions, focused, snapshotLoading, snapshotEvents, attentionToasts := [], None, true, [], map[];
    }

    method ApplySessionUpdate(session: Session)
      modifies this`sessions
      ensures Value() == ApplyEvent(old(Value()), Updated(session))
    {
      var index := IndexOf(sessions, session.id);
      if index == |sessions| {
        sessions := sessions + [session];
      } else {
        sessions := sessions[index := session];
      }
    }

    method UpdateSession(session: Session)
      modifies this`sessions, this`snapshotEvents
      ensures Value() == Receive(old(Value()), Updated(session))
      ensures snapshotEvents == old(snapshotEvents) + if snapshotLoading then [Updated(session)] else []
    {
      if snapshotLoading {
        snapshotEvents := snapshotEvents + [Updated(session)];
      }
      ApplySessionUpdate(session);
    }

    method ApplySessionRemoval(id: SessionId)
      modifies this`sessions, this`focused, this`attentionToasts
      ensures Value() == ApplyEvent(old(Value()), Removed(id))
    {
      sessions := Without(sessions, id);
      var open := attentionToasts.Keys;
      ghost var before := attentionToasts;
      while open != {}
        invariant open <= before.Keys
        invariant sessions == Without(old(sessions), id) && focused == old(focused)
        invariant attentionToasts ==
                  map key | key in before && (key in open || before[key] != id) :: before[key]
        decreases |open|
      {
        var key :| key in open;
        if attentionToasts[key] == id {
          attentionToasts := attentionToasts - {key};
        }
        open := open - {key};
      }
      assert attentionToasts == ToastsWithout(before, id);
      if focused == Some(id) {
        focused := None;
      }
    }

    method RemoveSession(id: SessionId)
      modifies this
      ensures Value() == Receive(old(Value()), Removed(id))
      ensures snapshotEvents == old(snapshotEvents) + if snapshotLoading then [Removed(id)] else []
    {
      if snapshotLoading {
        snapshotEvents := snapshotEvents + [Removed(id)];
      }
      ApplySessionRemoval(id);
    }

    // Everything loadSnapshotNow does before it awaits the daemon.
    method BeginSnapshot()
      modifies this`snapshotLoading, this`snapshotEvents
      ensures Value() == Begin(old(Value()))
      ensures snapshotLoading && snapshotEvents == []
    {
      snapshotLoading := true;
      snapshotEvents := [];
    }

    // The read was refused: the live table stays, the buffer is no longer fed.
    method AbandonSnapshot()
      modifies this`snapshotLoading
      ensures Value() == Abandon(old(Value()))
      ensures !snapshotLoading
    {
      snapshotLoading := false;
    }

    // The snapshot arrived: overwrite the table, then replay the buffer over it.
    method LandSnapshot(rows: seq<Session>, focus: Option<SessionId>)
      modifies this
      ensures Value() == Land(old(Value()), rows, focus)
      ensures !snapshotLoading && snapshotEvents == []
    {
      hide ApplyEvent, ApplyEvents;
      var pendingEvents := snapshotEvents;
      snapshotEvents := [];
      sessions := rows;
      focused := focus;
      ghost var start := Value();
      NoEvents(start, pendingEvents);
      for i := 0 to |pendingEvents|
        invariant Value() == ApplyEvents(start, pendingEvents[..i])
        invariant snapshotEvents == []
      {
        OneMoreEvent(start, pendingEvents, i);
        match pendingEvents[i] {
          case Updated(session) => ApplySessionUpdate(session);
          case Removed(id) => ApplySessionRemoval(id);
        }
      }
      assert pendingEvents[..|pendingEvents|] == pendingEvents;
      snapshotLoading := false;
    }
  }

  // ---------- The replica's rows are a table ----------

  lemma {:induction false} ApplyEventsIsReplay(c: Client, es: seq<Event>)
    requires DistinctIds(c.rows)
    ensures var after := ApplyEvents(c, es);
            && DistinctIds(after.rows)
            && TableOf(after.rows) == Replay(TableOf(c.rows), es)
            && after.loading == c.loading
            && after.buffer == c.buffer
    decreases |es|
  {
    if es != [] {
      var rest, e := es[..|es| - 1], es[|es| - 1];
      ApplyEventsIsReplay(c, rest);
      ApplyEventIsApply(ApplyEvents(c, rest), e);
    }
  }

  lemma {:induction false} ApplyEventIsApply(c: Client, e: Event)
    requires DistinctIds(c.rows)
    ensures DistinctIds(ApplyEvent(c, e).rows)
    ensures TableOf(ApplyEvent(c, e).rows) == Apply(TableOf(c.rows), e)
    ensures ApplyEvent(c, e).loading == c.loading && ApplyEvent(c, e).buffer == c.buffer
  {
    match e
    case Updated(session) => UpsertIsUpdate(c.rows, session);
    case Removed(id) => WithoutIsRemoval(c.rows, id);
  }

  // The focus never rests on a row the table does not hold: not after an event,
  // and not after a snapshot whose own focus was on one of its rows.
  predicate FocusOnRow(c: Client) {
    c.focused.Some? ==> exists r :: r in c.rows && r.id == c.focused.value
  }

  lemma ApplyEventKeepsFocusOnRow(c: Client, e: Event)
    requires FocusOnRow(c)
    ensures FocusOnRow(ApplyEvent(c, e))
  {
    var after := ApplyEvent(c, e);
    if after.focused.Some? {
      var r :| r in c.rows && r.id == c.focused.value;
      match e
      case Removed(id) => assert r in after.rows;
      case Updated(session) =>
        var k :| 0 <= k < |c.rows| && c.rows[k] == r;
        assert after.rows[k].id == r.id;
    }
  }

  lemma {:induction false} ApplyEventsKeepsFocusOnRow(c: Client, es: seq<Event>)
    requires FocusOnRow(c)
    ensures FocusOnRow(ApplyEvents(c, es))
    decreases |es|
  {
    if es != [] {
      ApplyEventsKeepsFocusOnRow(c, es[..|es| - 1]);
      ApplyEventKeepsFocusOnRow(ApplyEvents(c, es[..|es| - 1]), es[|es| - 1]);
    }
  }

  lemma LandKeepsFocusOnRow(c: Client, rows: seq<Session>, focused: Option<SessionId>)
    requires focused.Some? ==> exists r :: r in rows && r.id == focused.value
    ensures FocusOnRow(Land(c, rows, focused))
  {
    ApplyEventsKeepsFocusOnRow(c.(rows := rows, focused := focused, buffer := []), c.buffer);
  }

  // ---------- What an event leaves on screen ----------

  // A removal takes back the toasts about its session and the focus on it, an update
  // neither; nothing else changes, and no event raises a toast or moves the focus.
  lemma EventKeepsOthers(c: Client, e: Event)
    ensures forall key :: key in ApplyEvent(c, e).toasts <==> key in c.toasts && e != Removed(c.toasts[key])
    ensures forall key :: key in ApplyEvent(c, e).toasts ==> ApplyEvent(c, e).toasts[key] == c.toasts[key]
    ensures ApplyEvent(c, e).focused
         == if c.focused.Some? && e == Removed(c.focused.value) then None else c.focused
  {
  }

  // After any events a toast is still up exactly when none of them removed its session,
  // and the focus is where it was exactly when none of them removed the focused row.
  lemma {:induction false} EventsKeepOthers(c: Client, es: seq<Event>)
    ensures var after := ApplyEvents(c, es);
            && (forall key :: key in after.toasts <==> key in c.toasts && Removed(c.toasts[key]) !in es)
            && (forall key :: key in after.toasts ==> after.toasts[key] == c.toasts[key])
            && after.focused == if c.focused.Some? && Removed(c.focused.value) in es then None else c.focused
    decreases |es|
  {
    if es != [] {
      var front, last := es[..|es| - 1], es[|es| - 1];
      assert es == front + [last];
      EventsKeepOthers(c, front);
      EventKeepsOthers(ApplyEvents(c, front), last);
    }
  }

  // So a snapshot that lands takes back the toasts of the sessions removed while it was
  // read, and the focus is the snapshot's own unless that row was removed meanwhile.
  lemma LandKeepsOthers(c: Client, rows: seq<Session>, focused: Option<SessionId>)
    ensures var after := Land(c, rows, focused);
            && (forall key :: key in after.toasts <==> key in c.toasts && Removed(c.toasts[key]) !in c.buffer)
            && (forall key :: key in after.toasts ==> after.toasts[key] == c.toasts[key])
            && after.focused == if focused.Some? && Removed(focused.value) in c.buffer then None else focused
  {
    EventsKeepOthers(c.(rows := rows, focused := focused, buffer := []), c.buffer);
  }

  // ---------- Daemon, channel and window together ----------

  // A read in flight remembers how many events the window had received when it
  // started buffering; an answered one also the log position it was taken at.
  datatype Read =
    | NoRead
    | Asked(since: nat)
    | Answered(since: nat, at: nat, rows: seq<Session>, focused: Option<SessionId>)

  // base and point belong to the last snapshot that landed.
  datatype World = World(
    log: seq<Event>,
    delivered: nat,
    client: Client,
    read: Read,
    landed: bool,
    base: nat,
    point: nat)

  datatype Step =
    | DaemonEmits(e: Event)
    | Deliver
    | Ask
    | Answer(rows: seq<Session>, focused: Option<SessionId>)
    | LandRead
    | ReadFails

  // The window may attach at any point of the daemon's life, and with any rows: it may
  // just have started, or have missed events.
  predicate Init(w: World) {
    && w.delivered <= |w.log|
    && DistinctIds(w.client.rows)
    && w.read == NoRead
    && !w.landed
  }

  predicate Enabled(w: World, s: Step) {
    match s
    case DaemonEmits(_) => true
    case Deliver => w.delivered < |w.log|
    case Ask => w.read.NoRead?
    case Answer(rows, _) =>
      w.read.Asked? && DistinctIds(rows) && TableOf(rows) == TableAt(w.log, |w.log|)
    case LandRead => w.read.Answered?
    case ReadFails => !w.read.NoRead?
  }

  function Next(w: World, s: Step): World
    requires Enabled(w, s)
  {
    match s
    case DaemonEmits(e) => w.(log := w.log + [e])
    case Deliver => w.(client := Receive(w.client, w.log[w.delivered]), delivered := w.delivered + 1)
    case Ask => w.(client := Begin(w.client), read := Asked(w.delivered))
    case Answer(rows, focused) => w.(read := Answered(w.read.since, |w.log|, rows, focused))
    case LandRead =>
      w.(client := Land(w.client, w.read.rows, w.read.focused), read := NoRead,
         landed := true, base := w.read.since, point := w.read.at)
    case ReadFails => w.(client := Abandon(w.client), read := NoRead)
  }

  ghost predicate Run(ws: seq<World>, steps: seq<Step>) {
    && |ws| == |steps| + 1
    && Init(ws[0])
    && forall k :: 0 <= k < |steps| ==> Enabled(ws[k], steps[k]) && ws[k + 1] == Next(ws[k], steps[k])
  }

  predicate Inv(w: World) {
    && w.delivered <= |w.log|
    && DistinctIds(w.client.rows)
    && (w.landed ==>
          && w.base <= w.point <= |w.log|
          && w.base <= w.delivered
          && TableOf(w.client.rows) == Replay(TableAt(w.log, w.point), w.log[w.base..w.delivered]))
    && (!w.read.NoRead? ==>
          && w.client.loading
          && w.read.since <= w.delivered
          && w.client.buffer == w.log[w.read.since..w.delivered])
    && (w.read.Answered? ==>
          && w.read.since <= w.read.at <= |w.log|
          && DistinctIds(w.read.rows)
          && TableOf(w.read.rows) == TableAt(w.log, w.read.at))
  }

  lemma EmitKeepsInv(w: World, e: Event)
    requires Inv(w)
    ensures Inv(w.(log := w.log + [e]))
  {
    var log := w.log + [e];
    assert forall i, j :: 0 <= i <= j <= |w.log| ==> log[i..j] == w.log[i..j];
    assert forall n :: 0 <= n <= |w.log| ==> log[..n] == w.log[..n];
  }

  lemma WindowGrows(log: seq<Event>, base: nat, delivered: nat)
    requires base <= delivered < |log|
    ensures log[base..delivered + 1] == log[base..delivered] + [log[delivered]]
  {
  }

  lemma DeliverKeepsInv(w: World)
    requires Inv(w) && Enabled(w, Deliver)
    ensures Inv(Next(w, Deliver))
  {
    hide DistinctIds, TableOf, Replay, ApplyEvent;
    var e := w.log[w.delivered];
    var buffered := if w.client.loading then w.client.(buffer := w.client.buffer + [e]) else w.client;
    ApplyEventIsApply(buffered, e);
    if !w.read.NoRead? {
      WindowGrows(w.log, w.read.since, w.delivered);
    }
    if w.landed {
      WindowGrows(w.log, w.base, w.delivered);
      ReplayStep(TableAt(w.log, w.point), w.log[w.base..w.delivered], e);
    }
  }

  lemma LandKeepsInv(w: World)
    requires Inv(w) && Enabled(w, LandRead)
    ensures Inv(Next(w, LandRead))
  {
    ApplyEventsIsReplay(
      w.client.(rows := w.read.rows, focused := w.read.focused, buffer := []), w.client.buffer);
  }

  lemma NextKeepsInv(w: World, s: Step)
    requires Inv(w) && Enabled(w, s)
    ensures Inv(Next(w, s))
  {
    match s
    case DaemonEmits(e) => EmitKeepsInv(w, e);
    case Deliver => DeliverKeepsInv(w);
    case LandRead => LandKeepsInv(w);
    case _ =>
  }

  lemma {:induction false} RunKeepsInv(ws: seq<World>, steps: seq<Step>, k: nat)
    requires Run(ws, steps) && k < |ws|
    ensures Inv(ws[k])
  {
    if k > 0 {
      RunKeepsInv(ws, steps, k - 1);
      NextKeepsInv(ws[k - 1], steps[k - 1]);
    }
  }

  // Convergence, in every reachable state and whatever the interleaving: row
  // ids are unique, and once a snapshot has landed and its point has been
  // received, the window's table is the daemon's as of the last event received.
  // With the channel drained it is the daemon's table.
  lemma SnapshotConvergence(ws: seq<World>, steps: seq<Step>, k: nat)
    requires Run(ws, steps) && k < |ws|
    ensures var w := ws[k];
            && DistinctIds(w.client.rows)
            && w.delivered <= |w.log|
            && (w.landed && w.point <= w.delivered
                ==> TableOf(w.client.rows) == TableAt(w.log, w.delivered))
            && (w.landed && w.delivered == |w.log|
                ==> TableOf(w.client.rows) == Replay(map[], w.log))
  {
    RunKeepsInv(ws, steps, k);
    var w := ws[k];
    if w.landed && w.point <= w.delivered {
      ReplicaConverges(w.log, w.base, w.point, w.delivered);
    }
    assert w.log[..|w.log|] == w.log;
  }

  // Before the window has caught up it is never wrong by more than time: every
  // row is the daemon's own row, either as of the last event received or as of
  // the snapshot. No row is invented, and none comes back from the dead.
  lemma EveryRowIsTheDaemons(ws: seq<World>, steps: seq<Step>, k: nat, id: SessionId)
    requires Run(ws, steps) && k < |ws|
    requires ws[k].landed
    ensures var w := ws[k];
            && DistinctIds(w.client.rows)
            && w.delivered <= |w.log| && w.point <= |w.log|
            && Lookup(TableOf(w.client.rows), id) in
                 {Lookup(TableAt(w.log, w.delivered), id), Lookup(TableAt(w.log, w.point), id)}
  {
    RunKeepsInv(ws, steps, k);
    var w := ws[k];
    ReplicaRow(w.log, w.base, w.point, w.delivered, id);
  }
}
