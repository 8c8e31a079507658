// The desktop's event loop: the waiting badge, the one progress bar, toasts and the
// log buffer, all kept up to date one event at a time.
module FleetEvents {
  import opened SessionTable
  import opened Wrappers
  import FleetGrouping

  const MAX_LOG_ENTRIES: nat := 256

  type LogEntry = string

  datatype RegistryEvent =
    | SessionChange(event: Event)
    | Notification(text: string)
    | AgentEvent(text: string)
    | Log(entry: LogEntry)
    | Output(id: SessionId, data: string)

  datatype Received = Got(event: RegistryEvent) | Timeout | Disconnected

  // One turn of the loop: what was received, whether the log interval has passed, and
  // whether the window accepts what it is sent.
  datatype Tick = Tick(received: Received, logDue: bool, eventDelivered: bool, logsDelivered: bool)

  datatype ProgressStatus = Normal | Error | Paused | Indeterminate

  datatype FleetProgress = FleetProgress(status: ProgressStatus, percent: Option<nat>)

  // Everything the loop sent out, in order.
  datatype Sent = Sent(
    badges: seq<nat>,
    bars: seq<Option<FleetProgress>>,
    toasts: seq<(SessionId, SessionStatus)>,
    forwarded: seq<RegistryEvent>,
    batches: seq<seq<LogEntry>>,
    finishedRuns: seq<SessionId>)

  // ---------- The views, computed from a whole table ----------

  predicate WantsAttention(status: SessionStatus) {
    status in {NeedsYou, NeedsApproval, AwaitingInput}
  }

  // The statuses that want the operator are those the fleet list puts above a session
  // that only waits for its rate limit.
  lemma AttentionComesFirst(status: SessionStatus)
    ensures WantsAttention(status) <==> FleetGrouping.Urgency(status) > FleetGrouping.Urgency(RateLimited)
  {
  }

  function Waiting(t: Table): set<SessionId> {
    set id | id in t && WantsAttention(t[id].status)
  }

  function Reporting(t: Table): map<SessionId, TaskProgress> {
    map id | id in t && t[id].progress.Some? :: t[id].progress.value
  }

  // The same from a snapshot, row after row.
  function WaitingSessions(sessions: seq<Session>): set<SessionId> {
    set session | session in sessions && WantsAttention(session.status) :: session.id
  }

  function ReportingProgress(sessions: seq<Session>): map<SessionId, TaskProgress> {
    if sessions == [] then map[]
    else
      var front, last := ReportingProgress(sessions[..|sessions| - 1]), sessions[|sessions| - 1];
      if last.progress.Some? then front[last.id := last.progress.value] else front
  }

  lemma WaitingStep(t: Table, e: Event)
    ensures Waiting(Apply(t, e))
         == if e.Updated? && WantsAttention(e.session.status)
            then Waiting(t) + {Subject(e)}
            else Waiting(t) - {Subject(e)}
  {
  }

  lemma ReportingStep(t: Table, e: Event)
    ensures Reporting(Apply(t, e))
         == if e.Updated? && e.session.progress.Some?
            then Reporting(t)[Subject(e) := e.session.progress.value]
            else Reporting(t) - {Subject(e)}
  {
  }

  lemma SnapshotStep(front: seq<Session>, last: Session)
    requires DistinctIds(front + [last])
    ensures DistinctIds(front) && last.id !in TableOf(front)
    ensures TableOf(front + [last]) == Apply(TableOf(front), Updated(last))
    ensures WaitingSessions(front + [last])
         == WaitingSessions(front) + if WantsAttention(last.status) then {last.id} else {}
  {
    assert forall k :: 0 <= k < |front| ==> (front + [last])[k] == front[k];
    assert (front + [last])[|front|] == last;
    UpsertIsUpdate(front, last);
    assert Upsert(front, last) == front + [last];
  }

  lemma NewRow(t: Table, session: Session)
    requires session.id !in t
    ensures Waiting(Apply(t, Updated(session)))
         == Waiting(t) + if WantsAttention(session.status) then {session.id} else {}
    ensures Reporting(Apply(t, Updated(session)))
         == if session.progress.Some? then Reporting(t)[session.id := session.progress.value] else Reporting(t)
  {
    WaitingStep(t, Updated(session));
    ReportingStep(t, Updated(session));
    hide Apply;
    assert Waiting(t) - {session.id} == Waiting(t);
    assert Reporting(t) - {session.id} == Reporting(t);
  }

  lemma {:induction false} ViewsOfSnapshot(sessions: seq<Session>)
    requires DistinctIds(sessions)
    ensures WaitingSessions(sessions) == Waiting(TableOf(sessions))
    ensures ReportingProgress(sessions) == Reporting(TableOf(sessions))
    decreases |sessions|
  {
    if sessions != [] {
      var front, last := sessions[..|sessions| - 1], sessions[|sessions| - 1];
      assert sessions == front + [last];
      SnapshotStep(front, last);
      ViewsOfSnapshot(front);
      hide TableOf, DistinctIds, WaitingSessions, Apply, Waiting, Reporting;
      NewRow(TableOf(front), last);
    }
  }

  // ---------- The one bar ----------

  function Shown(report: TaskProgress): FleetProgress {
    match report
    case Percent(percent) => FleetProgress(Normal, Some(percent))
    case Failed(percent) => FleetProgress(Error, percent)
    case Paused(percent) => FleetProgress(ProgressStatus.Paused, percent)
    case Indeterminate => FleetProgress(ProgressStatus.Indeterminate, None)
  }

  // The reports one after another, in whatever order they come.
  function BarOf(reports: seq<TaskProgress>): Option<FleetProgress> {
    if reports == [] then None
    else if |reports| == 1 then Some(Shown(reports[0]))
    else
      var anyError := exists k :: 0 <= k < |reports| && reports[k].Failed?;
      Some(FleetProgress(if anyError then Error else ProgressStatus.Indeterminate, None))
  }

  // What the bar may claim about a fleet: nothing, the one report there is, or only
  // that several are under way and whether one of them failed.
  ghost predicate Honest(bar: Option<FleetProgress>, progress: map<SessionId, TaskProgress>) {
    match bar
    case None => progress == map[]
    case Some(shown) =>
      if exists id :: progress.Keys == {id} then
        exists id :: progress.Keys == {id} && shown == Shown(progress[id])
      else
        && progress != map[]
        && shown.percent == None
        && shown.status == if exists id :: id in progress && progress[id].Failed? then Error
                           else ProgressStatus.Indeterminate
  }

  function Reports(progress: map<SessionId, TaskProgress>, ids: seq<SessionId>): seq<TaskProgress>
    requires forall id :: id in ids ==> id in progress
  {
    seq(|ids|, k requires 0 <= k < |ids| => progress[ids[k]])
  }

  // ids lists every session that reports, once.
  ghost predicate Lists(ids: seq<SessionId>, progress: map<SessionId, TaskProgress>) {
    && (forall id :: id in ids <==> id in progress)
    && (forall j, k :: 0 <= j < k < |ids| ==> ids[j] != ids[k])
  }

  // There is only one honest bar, so the order of the reports cannot matter.
  lemma BarIsHonest(progress: map<SessionId, TaskProgress>, ids: seq<SessionId>, bar: Option<FleetProgress>)
    requires Lists(ids, progress)
    ensures Honest(bar, progress) <==> bar == BarOf(Reports(progress, ids))
  {
    var reports := Reports(progress, ids);
    if |ids| == 0 {
      assert progress == map[];
    } else if |ids| == 1 {
      assert progress.Keys == {ids[0]};
    } else {
      assert ids[0] in progress && ids[1] in progress && ids[0] != ids[1];
      forall id ensures progress.Keys != {id} {
        assert id != ids[0] || id != ids[1];
      }
      assert (exists k :: 0 <= k < |reports| && reports[k].Failed?)
        <==> (exists id :: id in progress && progress[id].Failed?) by {
        forall id | id in progress && progress[id].Failed?
          ensures exists k :: 0 <= k < |reports| && reports[k].Failed?
        {
          var k :| 0 <= k < |ids| && ids[k] == id;
          assert reports[k].Failed?;
        }
        forall k | 0 <= k < |reports| && reports[k].Failed?
          ensures exists id :: id in progress && progress[id].Failed?
        {
          assert ids[k] in progress && progress[ids[k]].Failed?;
        }
      }
    }
  }

  // The sessions that report, each once: the walk over the ordered map.
  method Enumerate(progress: map<SessionId, TaskProgress>) returns (ids: seq<SessionId>)
    ensures Lists(ids, progress)
  {
    ids := [];
    var left := progress.Keys;
    while left != {}
      invariant forall id :: id in ids <==> id in progress && id !in left
      invariant left <= progress.Keys
      invariant forall j, k :: 0 <= j < k < |ids| ==> ids[j] != ids[k]
      decreases |left|
    {
      var id :| id in left;
      left := left - {id};
      ids := ids + [id];
    }
  }

  method FleetBar(progress: map<SessionId, TaskProgress>) returns (bar: Option<FleetProgress>)
    ensures Honest(bar, progress)
    ensures Tells(bar, progress)
  {
    var ids := Enumerate(progress);
    bar := BarOf(Reports(progress, ids));
    BarIsHonest(progress, ids, bar);
    HonestBarTells(progress, bar);
  }

  // One session reports, and this is its report.
  ghost predicate OnlyReport(progress: map<SessionId, TaskProgress>, report: TaskProgress) {
    exists id :: id in progress && progress.Keys == {id} && progress[id] == report
  }

  // What can be read off the bar: nothing when nobody reports; an error exactly when
  // somebody failed; progress or a pause exactly when that is the only report; and a
  // figure exactly when the only report gives it.
  ghost predicate Tells(bar: Option<FleetProgress>, progress: map<SessionId, TaskProgress>) {
    && (bar.None? <==> forall id :: id !in progress)
    && (bar.Some? ==>
          && (bar.value.status == Error <==> exists id :: id in progress && progress[id].Failed?)
          && (bar.value.status == Normal <==> exists n: nat :: OnlyReport(progress, Percent(n)))
          && (bar.value.status == ProgressStatus.Paused <==> exists at :: OnlyReport(progress, TaskProgress.Paused(at)))
          && (forall n: nat :: bar.value.percent == Some(n) <==>
                || OnlyReport(progress, Percent(n))
                || OnlyReport(progress, Failed(Some(n)))
                || OnlyReport(progress, TaskProgress.Paused(Some(n)))))
  }

  lemma OneReportTells(progress: map<SessionId, TaskProgress>, id: SessionId, shown: FleetProgress)
    requires id in progress && progress.Keys == {id}
    ensures Tells(Some(shown), progress) <==> shown == Shown(progress[id])
  {
    var report := progress[id];
    assert forall r :: OnlyReport(progress, r) <==> r == report;
    assert (exists other :: other in progress && progress[other].Failed?) <==> report.Failed?;
    if Tells(Some(shown), progress) && shown.percent.Some? {
      assert OnlyReport(progress, report);
      assert shown.percent == Some(shown.percent.value);
    }
  }

  // The honest bar is the one that tells all of that.
  lemma HonestBarTells(progress: map<SessionId, TaskProgress>, bar: Option<FleetProgress>)
    ensures Honest(bar, progress) <==> Tells(bar, progress)
  {
    if bar.Some? {
      if id :| progress.Keys == {id} {
        OneReportTells(progress, id, bar.value);
      } else {
        assert forall r :: !OnlyReport(progress, r);
        assert bar.value.percent.Some? ==> bar.value.percent == Some(bar.value.percent.value);
      }
    }
  }

  // So two walks in different orders agree.
  lemma OrderIsIrrelevant(progress: map<SessionId, TaskProgress>, ids: seq<SessionId>, ids': seq<SessionId>)
    requires Lists(ids, progress) && Lists(ids', progress)
    ensures BarOf(Reports(progress, ids)) == BarOf(Reports(progress, ids'))
  {
    hide Honest, BarOf, Reports;
    BarIsHonest(progress, ids, BarOf(Reports(progress, ids)));
    BarIsHonest(progress, ids', BarOf(Reports(progress, ids)));
  }

  // ---------- Toasts ----------

  // The status in the last event about this session, if that event was an update.
  function LastStatus(events: seq<Event>, id: SessionId): Option<SessionStatus> {
    if events == [] then None
    else
      var last := events[|events| - 1];
      if Subject(last) != id then LastStatus(events[..|events| - 1], id)
      else if last.Updated? then Some(last.session.status)
      else None
  }

  // A toast for every update to a status that wants the operator and is not the one
  // the session had in its last event.
  function ToastsDue(events: seq<Event>): seq<(SessionId, SessionStatus)> {
    if events == [] then []
    else
      var front, last := events[..|events| - 1], events[|events| - 1];
      if && last.Updated?
         && WantsAttention(last.session.status)
         && LastStatus(front, last.session.id) != Some(last.session.status)
      then ToastsDue(front) + [(last.session.id, last.session.status)]
      else ToastsDue(front)
  }

  // The memo of toasts that are out, as the events so far determine it.
  ghost predicate Remembers(toasted: map<SessionId, SessionStatus>, events: seq<Event>) {
    forall id ::
      if id in toasted
      then LastStatus(events, id) == Some(toasted[id]) && WantsAttention(toasted[id])
      else LastStatus(events, id).None? || !WantsAttention(LastStatus(events, id).value)
  }

  lemma LastStatusStep(events: seq<Event>, e: Event, id: SessionId)
    ensures LastStatus(events + [e], id)
         == if Subject(e) != id then LastStatus(events, id)
            else if e.Updated? then Some(e.session.status)
            else None
  {
    assert (events + [e])[..|events|] == events;
  }

  lemma ToastsStep(events: seq<Event>, e: Event)
    ensures ToastsDue(events + [e])
         == if && e.Updated?
               && WantsAttention(e.session.status)
               && LastStatus(events, e.session.id) != Some(e.session.status)
            then ToastsDue(events) + [(e.session.id, e.session.status)]
            else ToastsDue(events)
  {
    assert (events + [e])[..|events|] == events;
  }

  method MaybeToast(session: Session, toasted: map<SessionId, SessionStatus>, ghost events: seq<Event>)
      returns (memo: map<SessionId, SessionStatus>, raised: seq<(SessionId, SessionStatus)>)
    requires Remembers(toasted, events)
    ensures Remembers(memo, events + [Updated(session)])
    ensures ToastsDue(events + [Updated(session)]) == ToastsDue(events) + raised
  {
    ToastsStep(events, Updated(session));
    forall id { LastStatusStep(events, Updated(session), id); }
    hide LastStatus, ToastsDue;
    raised := [];
    if !WantsAttention(session.status) {
      memo := toasted - {session.id};
    } else if session.id in toasted && toasted[session.id] == session.status {
      memo := toasted;
    } else {
      memo := toasted[session.id := session.status];
      raised := [(session.id, session.status)];
    }
  }

  // ---------- What a stretch of ticks says ----------

  function SessionEvents(ticks: seq<Tick>): seq<Event> {
    if ticks == [] then []
    else
      match ticks[|ticks| - 1].received
      case Got(SessionChange(event)) => SessionEvents(ticks[..|ticks| - 1]) + [event]
      case _ => SessionEvents(ticks[..|ticks| - 1])
  }

  predicate Forwards(event: RegistryEvent) {
    event.SessionChange? || event.Notification?
  }

  // Everything but terminal output, log records and agent events.
  function ForwardedIn(ticks: seq<Tick>): seq<RegistryEvent> {
    if ticks == [] then []
    else
      match ticks[|ticks| - 1].received
      case Got(event) =>
        if Forwards(event)
        then ForwardedIn(ticks[..|ticks| - 1]) + [event]
        else ForwardedIn(ticks[..|ticks| - 1])
      case _ => ForwardedIn(ticks[..|ticks| - 1])
  }

  // The work runs to move on: their session exited or went away.
  function RunsFinishedBy(events: seq<Event>): seq<SessionId> {
    if events == [] then []
    else
      var front, last := RunsFinishedBy(events[..|events| - 1]), events[|events| - 1];
      if last.Removed? || last.session.status == Exited then front + [Subject(last)] else front
  }

  predicate ForwardFails(tick: Tick) {
    tick.received.Got? && Forwards(tick.received.event) && !tick.eventDelivered
  }

  predicate Flushes(tick: Tick) {
    tick.received.Disconnected? || (tick.logDue && !ForwardFails(tick))
  }

  // Every record since the last flush, and at a flush every record it is about.
  function Unflushed(ticks: seq<Tick>): seq<LogEntry>
    decreases |ticks|, 1
  {
    if ticks == [] then [] else if Flushes(ticks[|ticks| - 1]) then [] else Gathered(ticks)
  }

  function Gathered(ticks: seq<Tick>): seq<LogEntry>
    requires ticks != []
    decreases |ticks|, 0
  {
    var front := Unflushed(ticks[..|ticks| - 1]);
    match ticks[|ticks| - 1].received
    case Got(Log(entry)) => front + [entry]
    case _ => front
  }

  function Newest(records: seq<LogEntry>): seq<LogEntry> {
    if |records| <= MAX_LOG_ENTRIES then records else records[|records| - MAX_LOG_ENTRIES..]
  }

  function BatchesOf(ticks: seq<Tick>): seq<seq<LogEntry>> {
    if ticks == [] then []
    else if Flushes(ticks[|ticks| - 1]) && Gathered(ticks) != []
    then BatchesOf(ticks[..|ticks| - 1]) + [Newest(Gathered(ticks))]
    else BatchesOf(ticks[..|ticks| - 1])
  }

  // Whether the loop ends with the last of these ticks.
  predicate EndsAt(ticks: seq<Tick>) {
    && ticks != []
    && (|| ForwardFails(ticks[|ticks| - 1])
        || ticks[|ticks| - 1].received.Disconnected?
        || (Flushes(ticks[|ticks| - 1]) && Gathered(ticks) != [] && !ticks[|ticks| - 1].logsDelivered))
  }

  // Whether the loop is still there after these ticks, none of which ended it.
  predicate Survives(ticks: seq<Tick>) {
    ticks == [] || (Survives(ticks[..|ticks| - 1]) && !EndsAt(ticks))
  }

  lemma SurvivesStep(ticks: seq<Tick>)
    ensures Survives(ticks) <==> ticks == [] || (Survives(ticks[..|ticks| - 1]) && !EndsAt(ticks))
  {
  }

  lemma PrefixStep(ticks: seq<Tick>, n: nat)
    requires n < |ticks|
    ensures ticks[..n + 1] == ticks[..n] + [ticks[n]]
    ensures ticks[..n + 1][..n] == ticks[..n]
  {
  }

  lemma TickStep(ticks: seq<Tick>, tick: Tick)
    ensures SessionEvents(ticks + [tick])
         == if tick.received.Got? && tick.received.event.SessionChange?
            then SessionEvents(ticks) + [tick.received.event.event]
            else SessionEvents(ticks)
    ensures ForwardedIn(ticks + [tick])
         == if tick.received.Got? && Forwards(tick.received.event)
            then ForwardedIn(ticks) + [tick.received.event]
            else ForwardedIn(ticks)
    ensures Gathered(ticks + [tick])
         == if tick.received.Got? && tick.received.event.Log?
            then Unflushed(ticks) + [tick.received.event.entry]
            else Unflushed(ticks)
    ensures BatchesOf(ticks + [tick])
         == if Flushes(tick) && Gathered(ticks + [tick]) != []
            then BatchesOf(ticks) + [Newest(Gathered(ticks + [tick]))]
            else BatchesOf(ticks)
    ensures Unflushed(ticks + [tick]) == if Flushes(tick) then [] else Gathered(ticks + [tick])
    ensures EndsAt(ticks + [tick]) <==>
              || ForwardFails(tick)
              || tick.received.Disconnected?
              || (Flushes(tick) && Gathered(ticks + [tick]) != [] && !tick.logsDelivered)
  {
    assert (ticks + [tick])[..|ticks|] == ticks;
  }

  // When the records gathered so far are offered to the window: when the daemon is gone,
  // and when the interval has passed, unless the window has just refused an event. The
  // loop ends with the daemon, with a refused event and with a refused batch.
  lemma WhenBatchesAreOffered(ticks: seq<Tick>, tick: Tick)
    ensures
      var after, records := ticks + [tick], Gathered(ticks + [tick]);
      var got := tick.received;
      var refused := got.Got? && (got.event.SessionChange? || got.event.Notification?) && !tick.eventDelivered;
      var due := got == Disconnected || (tick.logDue && !refused);
      && (BatchesOf(after) == BatchesOf(ticks) <==> !due || records == [])
      && Unflushed(after) == (if due then [] else records)
      && (EndsAt(after) <==>
            got == Disconnected || refused || (due && records != [] && !tick.logsDelivered))
  {
    TickStep(ticks, tick);
    assert (ticks + [tick])[..|ticks|] == ticks;
    hide Gathered, BatchesOf;
  }

  // The newest records are the last 256, in order.
  lemma NewestAreTheLast(records: seq<LogEntry>, k: nat)
    ensures |Newest(records)| == if |records| < 256 then |records| else 256
    ensures k < |Newest(records)| ==> Newest(records)[|Newest(records)| - 1 - k] == records[|records| - 1 - k]
  {
  }

  lemma NewestStep(records: seq<LogEntry>, entry: LogEntry)
    ensures Newest(Newest(records) + [entry]) == Newest(records + [entry])
  {
  }

  lemma NewestIsEmpty(records: seq<LogEntry>)
    ensures Newest(records) == [] <==> records == []
  {
  }

  lemma RunsStep(events: seq<Event>, e: Event)
    ensures RunsFinishedBy(events + [e])
         == if e.Removed? || e.session.status == Exited
            then RunsFinishedBy(events) + [Subject(e)]
            else RunsFinishedBy(events)
  {
    assert (events + [e])[..|events|] == events;
  }

  // ---------- The loop ----------

  // What was last sent to the taskbar.
  datatype Rendered = Rendered(waiting: Option<nat>, progress: Option<FleetProgress>)

  // What is on the taskbar is what the views say, and nothing is sent twice in a row
  // but the first badge, which the first event sends again.
  ghost predicate Displays(badges: seq<nat>, bars: seq<Option<FleetProgress>>, rendered: Rendered,
                     waiting: set<SessionId>, progress: map<SessionId, TaskProgress>)
  {
    && badges != [] && badges[|badges| - 1] == |waiting|
    && rendered.waiting == (if |badges| == 1 then None else Some(|waiting|))
    && (forall k :: 1 <= k < |badges| - 1 ==> badges[k] != badges[k + 1])
    && bars != [] && bars[|bars| - 1] == rendered.progress
    && Honest(rendered.progress, progress)
    && (forall k :: 0 <= k < |bars| - 1 ==> bars[k] != bars[k + 1])
  }

  // The views are those of the table the events lead to, and every toast and every
  // finished run follows from the events.
  ghost predicate Follows(start: Table, events: seq<Event>, waiting: set<SessionId>,
                          progress: map<SessionId, TaskProgress>, toasted: map<SessionId, SessionStatus>,
                          toasts: seq<(SessionId, SessionStatus)>, finishedRuns: seq<SessionId>)
  {
    && waiting == Waiting(Replay(start, events))
    && progress == Reporting(Replay(start, events))
    && Remembers(toasted, events)
    && toasts == ToastsDue(events)
    && finishedRuns == RunsFinishedBy(events)
  }

  ghost predicate Buffers(ticks: seq<Tick>, pendingLogs: seq<LogEntry>, batches: seq<seq<LogEntry>>) {
    && pendingLogs == Newest(Unflushed(ticks))
    && batches == BatchesOf(ticks)
  }

  method HandleSession(event: Event, waiting0: set<SessionId>, progress0: map<SessionId, TaskProgress>,
                       toasted0: map<SessionId, SessionStatus>, sent0: Sent,
                       ghost start: Table, ghost events: seq<Event>)
      returns (waiting: set<SessionId>, progress: map<SessionId, TaskProgress>,
               toasted: map<SessionId, SessionStatus>, sent: Sent)
    requires Follows(start, events, waiting0, progress0, toasted0, sent0.toasts, sent0.finishedRuns)
    ensures Follows(start, events + [event], waiting, progress, toasted, sent.toasts, sent.finishedRuns)
    ensures sent == sent0.(toasts := sent.toasts, finishedRuns := sent.finishedRuns)
  {
    ReplayStep(start, events, event);
    WaitingStep(Replay(start, events), event);
    ReportingStep(Replay(start, events), event);
    RunsStep(events, event);
    hide Replay, Waiting, Reporting, RunsFinishedBy, Remembers, ToastsDue;
    waiting, progress, toasted, sent := waiting0, progress0, toasted0, sent0;
    match event
    case Updated(session) =>
      if session.status == Exited {
        sent := sent.(finishedRuns := sent.finishedRuns + [session.id]);
      }
      if WantsAttention(session.status) {
        waiting := waiting + {session.id};
      } else {
        waiting := waiting - {session.id};
      }
      if session.progress.Some? {
        progress := progress[session.id := session.progress.value];
      } else {
        progress := progress - {session.id};
      }
      var raised;
      toasted, raised := MaybeToast(session, toasted, events);
      sent := sent.(toasts := sent.toasts + raised);
    case Removed(id) =>
      sent := sent.(finishedRuns := sent.finishedRuns + [id]);
      waiting := waiting - {id};
      progress := progress - {id};
      toasted := toasted - {id};
      ForgetRemoved(toasted0, events, id);
  }

  lemma ForgetRemoved(toasted: map<SessionId, SessionStatus>, events: seq<Event>, id: SessionId)
    requires Remembers(toasted, events)
    ensures Remembers(toasted - {id}, events + [Removed(id)])
    ensures ToastsDue(events + [Removed(id)]) == ToastsDue(events)
  {
    forall other { LastStatusStep(events, Removed(id), other); }
    ToastsStep(events, Removed(id));
  }

  method RefreshTaskbar(waiting: set<SessionId>, progress: map<SessionId, TaskProgress>,
                        rendered0: Rendered, sent0: Sent,
                        ghost waiting0: set<SessionId>, ghost progress0: map<SessionId, TaskProgress>)
      returns (rendered: Rendered, sent: Sent)
    requires Displays(sent0.badges, sent0.bars, rendered0, waiting0, progress0)
    ensures Displays(sent.badges, sent.bars, rendered, waiting, progress)
    ensures sent == sent0.(badges := sent.badges, bars := sent.bars)
  {
    hide Tells;
    rendered, sent := rendered0, sent0;
    if rendered.waiting != Some(|waiting|) {
      sent := sent.(badges := sent.badges + [|waiting|]);
      rendered := rendered.(waiting := Some(|waiting|));
    }
    var fleet := FleetBar(progress);
    if rendered.progress != fleet {
      sent := sent.(bars := sent.bars + [fleet]);
      rendered := rendered.(progress := fleet);
    }
  }

  method PushLog(pendingLogs: seq<LogEntry>, entry: LogEntry) returns (pushed: seq<LogEntry>)
    ensures pushed == Newest(pendingLogs + [entry])
  {
    pushed := pendingLogs + [entry];
    while |pushed| > MAX_LOG_ENTRIES
      invariant |pushed| <= |pendingLogs| + 1
      invariant pushed == (pendingLogs + [entry])[|pendingLogs| + 1 - |pushed|..]
      invariant |pushed| >= MAX_LOG_ENTRIES || pushed == pendingLogs + [entry]
    {
      pushed := pushed[1..];
    }
  }

  // Anything but terminal output and log records.
  method HandleEvent(event: RegistryEvent, waiting0: set<SessionId>, progress0: map<SessionId, TaskProgress>,
                     toasted0: map<SessionId, SessionStatus>, rendered0: Rendered, sent0: Sent, delivered: bool,
                     ghost start: Table, ghost events: seq<Event>)
      returns (waiting: set<SessionId>, progress: map<SessionId, TaskProgress>,
               toasted: map<SessionId, SessionStatus>, rendered: Rendered, sent: Sent, running: bool)
    requires Follows(start, events, waiting0, progress0, toasted0, sent0.toasts, sent0.finishedRuns)
    requires Displays(sent0.badges, sent0.bars, rendered0, waiting0, progress0)
    ensures Follows(start, if event.SessionChange? then events + [event.event] else events,
                    waiting, progress, toasted, sent.toasts, sent.finishedRuns)
    ensures Displays(sent.badges, sent.bars, rendered, waiting, progress)
    ensures sent.batches == sent0.batches
    ensures sent.forwarded == if event.AgentEvent? then sent0.forwarded else sent0.forwarded + [event]
    ensures running == (event.AgentEvent? || delivered)
  {
    hide Follows, Displays;
    waiting, progress, toasted, sent, running := waiting0, progress0, toasted0, sent0, true;
    if event.SessionChange? {
      waiting, progress, toasted, sent := HandleSession(event.event, waiting, progress, toasted, sent, start, events);
    }
    rendered, sent := RefreshTaskbar(waiting, progress, rendered0, sent, waiting0, progress0);
    if !event.AgentEvent? {
      sent := sent.(forwarded := sent.forwarded + [event]);
      running := delivered;
    }
  }

  // The buffer is emptied whether or not the window takes the batch.
  method FlushLogBatches(pendingLogs: seq<LogEntry>, delivered: bool, sent0: Sent)
      returns (left: seq<LogEntry>, sent: Sent, ok: bool)
    ensures left == []
    ensures sent == sent0.(batches := if pendingLogs == [] then sent0.batches else sent0.batches + [pendingLogs])
    ensures ok == (pendingLogs == [] || delivered)
  {
    left, sent, ok := [], sent0, true;
    if pendingLogs != [] {
      sent, ok := sent.(batches := sent.batches + [pendingLogs]), delivered;
    }
  }

  // The loop's variables.
  datatype Bridge = Bridge(
    waiting: set<SessionId>,
    progress: map<SessionId, TaskProgress>,
    toasted: map<SessionId, SessionStatus>,
    pendingLogs: seq<LogEntry>,
    rendered: Rendered,
    sent: Sent)

  // What the variables hold once the loop has seen these ticks.
  ghost predicate Sound(start: Table, ticks: seq<Tick>, bridge: Bridge) {
    var sent := bridge.sent;
    && Follows(start, SessionEvents(ticks), bridge.waiting, bridge.progress, bridge.toasted,
               sent.toasts, sent.finishedRuns)
    && Displays(sent.badges, sent.bars, bridge.rendered, bridge.waiting, bridge.progress)
    && Buffers(ticks, bridge.pendingLogs, sent.batches)
    && sent.forwarded == ForwardedIn(ticks)
  }

  lemma BeforeTheFirstTick(initial: seq<Session>, fleet: Option<FleetProgress>)
    requires DistinctIds(initial) && Honest(fleet, ReportingProgress(initial))
    ensures Sound(TableOf(initial), [], Bridge(
      WaitingSessions(initial), ReportingProgress(initial), map[], [], Rendered(None, fleet),
      Sent([|WaitingSessions(initial)|], [fleet], [], [], [], [])))
  {
    ViewsOfSnapshot(initial);
    hide TableOf, WaitingSessions, ReportingProgress, Waiting, Reporting, Honest;
    assert Replay(TableOf(initial), []) == TableOf(initial);
  }

  // One turn of the loop; running says whether there is another.
  method HandleTick(tick: Tick, bridge: Bridge, ghost start: Table, ghost before: seq<Tick>)
      returns (next: Bridge, running: bool)
    requires Sound(start, before, bridge)
    ensures Sound(start, before + [tick], next)
    ensures running <==> !EndsAt(before + [tick])
  {
    TickStep(before, tick);
    NewestIsEmpty(Gathered(before + [tick]));
    NewestIsEmpty([]);
    hide Follows, Displays, Newest, SessionEvents, ForwardedIn, Gathered, Unflushed, BatchesOf, EndsAt;
    var waiting, progress, toasted := bridge.waiting, bridge.progress, bridge.toasted;
    var pendingLogs, rendered, sent := bridge.pendingLogs, bridge.rendered, bridge.sent;
    running := true;
    match tick.received {
      case Got(Output(_, _)) =>
      case Got(Log(entry)) =>
        pendingLogs := PushLog(pendingLogs, entry);
        NewestStep(Unflushed(before), entry);
      case Got(event) =>
        waiting, progress, toasted, rendered, sent, running :=
          HandleEvent(event, waiting, progress, toasted, rendered, sent, tick.eventDelivered,
                      start, SessionEvents(before));
      case Timeout =>
      case Disconnected =>
        pendingLogs, sent, running := FlushLogBatches(pendingLogs, tick.logsDelivered, sent);
        running := false;
    }
    if running && tick.logDue {
      pendingLogs, sent, running := FlushLogBatches(pendingLogs, tick.logsDelivered, sent);
    }
    next := Bridge(waiting, progress, toasted, pendingLogs, rendered, sent);
  }

  // Before the first tick: the views of the first snapshot, already on the taskbar.
  method StartBridge(initial: seq<Session>) returns (bridge: Bridge)
    requires DistinctIds(initial)
    ensures Sound(TableOf(initial), [], bridge)
  {
    var waiting := WaitingSessions(initial);
    var progress := ReportingProgress(initial);
    var fleet := FleetBar(progress);
    bridge := Bridge(waiting, progress, map[], [], Rendered(None, fleet), Sent([|waiting|], [fleet], [], [], [], []));
    BeforeTheFirstTick(initial, fleet);
  }

  // ticks is as much of the loop's life as is looked at. It may end earlier, at the tick
  // that ends it.
  method BridgeDaemonEvents(initial: seq<Session>, ticks: seq<Tick>) returns (bridge: Bridge, consumed: nat)
    requires DistinctIds(initial)
    ensures consumed <= |ticks|
    ensures Sound(TableOf(initial), ticks[..consumed], bridge)
    ensures if Survives(ticks[..consumed]) then consumed == |ticks| else consumed > 0 && Survives(ticks[..consumed - 1])
  {
    bridge := StartBridge(initial);
    hide Sound, Follows, Displays, TableOf, EndsAt, Survives, DistinctIds, WaitingSessions, ReportingProgress, Honest;
    SurvivesStep([]);
    assert ticks[..0] == [];
    consumed := 0;
    var running := true;
    while running && consumed < |ticks|
      invariant consumed <= |ticks|
      invariant Sound(TableOf(initial), ticks[..consumed], bridge)
      invariant running <==> Survives(ticks[..consumed])
      invariant running || (consumed > 0 && Survives(ticks[..consumed - 1]))
      decreases |ticks| - consumed
    {
      SurvivesStep(ticks[..consumed + 1]);
      PrefixStep(ticks, consumed);
      bridge, running := HandleTick(ticks[consumed], bridge, TableOf(initial), ticks[..consumed]);
      consumed := consumed + 1;
    }
  }

  // ---------- What the loop's result means ----------

  // The first snapshot may already include events the loop receives afterwards. Once
  // the loop has received the daemon's events up to that snapshot, its views are the
  // daemon's, and badge and bar show them.
  lemma ViewsAreTheDaemons(
      initial: seq<Session>, ticks: seq<Tick>, bridge: Bridge, log: seq<Event>, base: nat, point: nat, delivered: nat)
    requires base <= point <= delivered <= |log|
    requires DistinctIds(initial) && TableOf(initial) == TableAt(log, point)
    requires Sound(TableOf(initial), ticks, bridge) && SessionEvents(ticks) == log[base..delivered]
    ensures bridge.waiting == Waiting(TableAt(log, delivered))
    ensures bridge.progress == Reporting(TableAt(log, delivered))
    ensures
      var badges, bars, now := bridge.sent.badges, bridge.sent.bars, TableAt(log, delivered);
      && badges != [] && badges[|badges| - 1] == |Waiting(now)|
      && bars != [] && Honest(bars[|bars| - 1], Reporting(now))
  {
    ReplicaConverges(log, base, point, delivered);
    hide TableAt, Replay, Waiting, Reporting, Honest;
  }

  // When the first snapshot fails the loop starts from nothing, and knows about a session
  // only once an event has mentioned it.
  lemma WithoutASnapshot(ticks: seq<Tick>, bridge: Bridge, log: seq<Event>, base: nat, delivered: nat)
    requires base <= delivered <= |log|
    requires Sound(map[], ticks, bridge) && SessionEvents(ticks) == log[base..delivered]
    ensures
      var now, window := TableAt(log, delivered), log[base..delivered];
      && (forall id :: id in bridge.waiting <==> id in Waiting(now) && Touched(window, id))
      && (forall id :: id in bridge.progress <==> id in Reporting(now) && Touched(window, id))
      && (forall id :: id in bridge.progress ==> bridge.progress[id] == Reporting(now)[id])
  {
    var now, window := TableAt(log, delivered), log[base..delivered];
    var found := Replay(map[], window);
    forall id
      ensures id in Waiting(found) <==> id in Waiting(now) && Touched(window, id)
      ensures id in Reporting(found) <==> id in Reporting(now) && Touched(window, id)
      ensures id in Reporting(found) ==> Reporting(found)[id] == Reporting(now)[id]
    {
      assert TableAt(log, 0) == map[];
      ReplicaRow(log, base, 0, delivered, id);
      assert Lookup(found, id) == Lookup(TableAt(log, if Touched(window, id) then delivered else 0), id);
    }
  }

  function Records(ticks: seq<Tick>): seq<LogEntry> {
    if ticks == [] then []
    else
      match ticks[|ticks| - 1].received
      case Got(Log(entry)) => Records(ticks[..|ticks| - 1]) + [entry]
      case _ => Records(ticks[..|ticks| - 1])
  }

  // No more than 256 records between one flush and the next.
  predicate Fits(ticks: seq<Tick>) {
    ticks == [] || (Fits(ticks[..|ticks| - 1]) && |Gathered(ticks)| <= MAX_LOG_ENTRIES)
  }

  function Flatten(batches: seq<seq<LogEntry>>): seq<LogEntry> {
    if batches == [] then [] else Flatten(batches[..|batches| - 1]) + batches[|batches| - 1]
  }

  lemma FlattenStep(batches: seq<seq<LogEntry>>, batch: seq<LogEntry>)
    ensures Flatten(batches + [batch]) == Flatten(batches) + batch
  {
    assert (batches + [batch])[..|batches|] == batches;
  }

  ghost predicate Accounted(fits: bool, sent: seq<LogEntry>, left: seq<LogEntry>, records: seq<LogEntry>) {
    if fits
    then sent + left == records && |left| <= MAX_LOG_ENTRIES
    else |sent| + |Newest(left)| < |records|
  }

  lemma OneMoreRecord(fits: bool, sent: seq<LogEntry>, left: seq<LogEntry>, records: seq<LogEntry>, entry: LogEntry)
    requires Accounted(fits, sent, left, records)
    ensures Accounted(fits && |left| < MAX_LOG_ENTRIES, sent, left + [entry], records + [entry])
  {
    assert sent + (left + [entry]) == sent + left + [entry];
  }

  lemma OneFlush(fits: bool, sent: seq<LogEntry>, left: seq<LogEntry>, records: seq<LogEntry>)
    requires Accounted(fits, sent, left, records)
    ensures Accounted(fits, sent + Newest(left), [], records)
  {
  }

  lemma {:induction false} RecordsAreCounted(ticks: seq<Tick>)
    ensures Accounted(Fits(ticks), Flatten(BatchesOf(ticks)), Unflushed(ticks), Records(ticks))
    decreases |ticks|
  {
    if ticks != [] {
      var front, last := ticks[..|ticks| - 1], ticks[|ticks| - 1];
      RecordsAreCounted(front);
      assert ticks == front + [last];
      TickStep(front, last);
      hide Accounted, Gathered, Unflushed, BatchesOf, Newest, SessionEvents, ForwardedIn;
      if last.received.Got? && last.received.event.Log? {
        OneMoreRecord(
          Fits(front), Flatten(BatchesOf(front)), Unflushed(front), Records(front), last.received.event.entry);
      } else {
        ShortEnough(front);
      }
      if Flushes(last) {
        OneFlush(Fits(ticks), Flatten(BatchesOf(front)), Gathered(ticks), Records(ticks));
        NewestIsEmpty(Gathered(ticks));
        FlattenStep(BatchesOf(front), Newest(Gathered(ticks)));
      }
    }
  }

  lemma ShortEnough(ticks: seq<Tick>)
    ensures Fits(ticks) ==> |Unflushed(ticks)| <= MAX_LOG_ENTRIES
  {
  }

  // The batches the window took.
  function TakenBatches(ticks: seq<Tick>): seq<seq<LogEntry>> {
    if ticks == [] then []
    else if Flushes(ticks[|ticks| - 1]) && Gathered(ticks) != [] && ticks[|ticks| - 1].logsDelivered
    then TakenBatches(ticks[..|ticks| - 1]) + [Newest(Gathered(ticks))]
    else TakenBatches(ticks[..|ticks| - 1])
  }

  // While the loop is there the window has taken every batch it was sent.
  lemma {:induction false} RefusalEndsTheLoop(ticks: seq<Tick>)
    requires Survives(ticks)
    ensures TakenBatches(ticks) == BatchesOf(ticks)
    decreases |ticks|
  {
    if ticks != [] {
      RefusalEndsTheLoop(ticks[..|ticks| - 1]);
    }
  }

  // While the loop is there, every log record has reached the window once and in order,
  // or is still waiting, exactly when no interval between flushes saw more than 256.
  lemma LogsAreKept(ticks: seq<Tick>)
    requires Survives(ticks)
    ensures Flatten(TakenBatches(ticks)) + Newest(Unflushed(ticks)) == Records(ticks) <==> Fits(ticks)
  {
    RecordsAreCounted(ticks);
    RefusalEndsTheLoop(ticks);
  }

  // At the tick that ends it, the same holds if that tick's batch is taken too; a
  // refused one is the last thing the loop does, and is lost.
  lemma LastBatchMayBeLost(ticks: seq<Tick>)
    requires ticks != [] && Survives(ticks[..|ticks| - 1])
    ensures Flatten(BatchesOf(ticks)) + Newest(Unflushed(ticks)) == Records(ticks) <==> Fits(ticks)
    ensures
      var last := ticks[|ticks| - 1];
      var refused := Flushes(last) && Gathered(ticks) != [] && !last.logsDelivered;
      BatchesOf(ticks) == TakenBatches(ticks) + if refused then [Newest(Gathered(ticks))] else []
  {
    RecordsAreCounted(ticks);
    RefusalEndsTheLoop(ticks[..|ticks| - 1]);
  }
}
