/** coordinator.py as a state machine: one step per stretch of code between awaits.
    Each category is a Lane; the dedup table is shared. The class in Coordinator.dfy is
    proved equal to this machine, and the whole-run theorems are about it. */
module Machine {
  import opened Wrappers
  import opened Models
  import Severity

  /** WEBHOOK_DEDUP_WINDOW_SECONDS, in milliseconds. */
  const DEDUP_WINDOW: int := 5000

  datatype Config = Config(minSeverity: map<string, string>, clearTimeoutMinutes: int)

  function ClearDelay(cfg: Config): int {
    cfg.clearTimeoutMinutes * 60 * 1000
  }

  /** The two host clocks: the monotonic one drives dedup and sleeping tasks. */
  datatype Clock = Clock(mono: int, wall: int)

  datatype Action =
    | Push(category: string, alert: Alert)
    | Poll(found: map<string, seq<Alert>>)
    | ClearOne(category: string)
    | ClearAll
    | TimerDue(category: string, task: nat)
    | TaskReturns(category: string, task: nat)
    | Refresh

  datatype Event = Event(at: Clock, action: Action)

  /** An auto-clear task: asleep, awaiting its persist, returned, or cancelled. */
  datatype Status = Sleeping | Persisting | Returned | Cancelled
  datatype Task = Task(wakeAt: int, status: Status)

  /** Every auto-clear task a category ever started, and the handle kept in _clear_tasks. */
  datatype Timers = Timers(handle: Option<nat>, tasks: seq<Task>)

  datatype Lane = Lane(cat: Cat, timers: Timers)

  type Pair = (string, string)

  datatype Core = Core(lanes: map<string, Lane>, lastPushAt: map<Pair, int>)

  // ---- timers ----

  function CancelTask(tasks: seq<Task>, h: Option<nat>): (r: seq<Task>)
    ensures |r| == |tasks|
  {
    if h.Some? && h.value < |tasks| && tasks[h.value].status in {Sleeping, Persisting}
    then tasks[h.value := tasks[h.value].(status := Cancelled)]
    else tasks
  }

  function Scheduled(t: Timers, wakeAt: int): Timers {
    Timers(Some(|t.tasks|), CancelTask(t.tasks, t.handle) + [Task(wakeAt, Sleeping)])
  }

  function Unscheduled(t: Timers): Timers {
    Timers(None, CancelTask(t.tasks, t.handle))
  }

  predicate Due(t: Timers, i: nat, mono: int) {
    i < |t.tasks| && t.tasks[i].status.Sleeping? && t.tasks[i].wakeAt <= mono
  }

  function WithStatus(t: Timers, i: nat, status: Status): Timers
    requires i < |t.tasks|
  {
    t.(tasks := t.tasks[i := t.tasks[i].(status := status)])
  }

  /** asyncio.sleep has returned: clear if still alerting, then await the persist. */
  function Woken(lane: Lane, i: nat, at: Clock): Lane {
    if !Due(lane.timers, i, at.mono) then lane
    else if lane.cat.alerting then Lane(Acknowledged(lane.cat, at.wall), WithStatus(lane.timers, i, Persisting))
    else lane.(timers := WithStatus(lane.timers, i, Returned))
  }

  function Returns(lane: Lane, i: nat): Lane {
    if i < |lane.timers.tasks| && lane.timers.tasks[i].status.Persisting?
    then lane.(timers := WithStatus(lane.timers, i, Returned)) else lane
  }

  // ---- pushes ----

  predicate Passes(cfg: Config, category: string, a: Alert) {
    Severity.MeetsMinimum(Severity.Normalize(a.severity), Severity.EffectiveMinimum(cfg.minSeverity, category))
  }

  predicate Suppressed(table: map<Pair, int>, p: Pair, now: int) {
    p in table && now - table[p] < DEDUP_WINDOW
  }

  /** The table after an accepted keyed push: expired entries dropped, the new one recorded. */
  function Recorded(table: map<Pair, int>, p: Pair, now: int): map<Pair, int> {
    (map q | q in table && table[q] >= now - DEDUP_WINDOW :: table[q])[p := now]
  }

  datatype Verdict = Ignored | BelowMinimum | Duplicate | Accepted

  function Judge(cfg: Config, s: Core, category: string, a: Alert, mono: int): Verdict {
    if category !in s.lanes || !s.lanes[category].cat.enabled then Ignored
    else if !Passes(cfg, category, a) then BelowMinimum
    else if a.key != "" && Suppressed(s.lastPushAt, (category, a.key), mono) then Duplicate
    else Accepted
  }

  function AfterPush(c: Cat, a: Alert): Cat {
    var d := Applied(c, a).(webhookAt := Some(a.receivedAt));
    if c.clearedAt.None? || a.receivedAt > c.clearedAt.value then d.(openCount := d.openCount + 1) else d
  }

  function Pushed(cfg: Config, lane: Lane, a: Alert, v: Verdict, mono: int): Lane {
    match v
    case Accepted => Lane(AfterPush(lane.cat, a), Scheduled(lane.timers, mono + ClearDelay(cfg)))
    case BelowMinimum => lane.(cat := FilteredOut(lane.cat, a).(webhookAt := Some(a.receivedAt)))
    case _ => lane
  }

  // ---- polls ----

  function Eligible(cfg: Config, category: string, alerts: seq<Alert>): (r: seq<Alert>)
    ensures forall a :: a in r <==> a in alerts && Passes(cfg, category, a)
  {
    if alerts == [] then []
    else
      var last := alerts[|alerts| - 1];
      Eligible(cfg, category, alerts[..|alerts| - 1]) + if Passes(cfg, category, last) then [last] else []
  }

  predicate NewerThan(mark: Option<int>, a: Alert) {
    mark.None? || a.receivedAt > mark.value
  }

  function Unacknowledged(mark: Option<int>, alerts: seq<Alert>): (r: seq<Alert>)
    ensures forall a :: a in r <==> a in alerts && NewerThan(mark, a)
  {
    if alerts == [] then []
    else
      var last := alerts[|alerts| - 1];
      Unacknowledged(mark, alerts[..|alerts| - 1]) + if NewerThan(mark, last) then [last] else []
  }

  lemma EligibleSnoc(cfg: Config, c: string, xs: seq<Alert>, a: Alert)
    ensures Eligible(cfg, c, xs + [a]) == Eligible(cfg, c, xs) + if Passes(cfg, c, a) then [a] else []
  {
    hide Passes;
    assert (xs + [a])[..|xs|] == xs;
  }

  lemma UnacknowledgedSnoc(mark: Option<int>, xs: seq<Alert>, a: Alert)
    ensures Unacknowledged(mark, xs + [a]) == Unacknowledged(mark, xs) + if NewerThan(mark, a) then [a] else []
  {
    hide NewerThan;
    assert (xs + [a])[..|xs|] == xs;
  }

  /** max(alerts, key=received_at): the first of the newest. */
  function MostRecent(alerts: seq<Alert>): (r: Alert)
    requires alerts != []
    ensures r in alerts
    ensures forall a :: a in alerts ==> a.receivedAt <= r.receivedAt
  {
    var last := alerts[|alerts| - 1];
    if |alerts| == 1 then last
    else
      var best := MostRecent(alerts[..|alerts| - 1]);
      if last.receivedAt > best.receivedAt then last else best
  }

  /** max keeps the first of equal maxima. */
  lemma {:induction false} MostRecentIsFirst(alerts: seq<Alert>)
    requires alerts != []
    ensures exists i :: 0 <= i < |alerts| && alerts[i] == MostRecent(alerts)
                        && forall j :: 0 <= j < i ==> alerts[j].receivedAt < alerts[i].receivedAt
  {
    var n := |alerts| - 1;
    if n > 0 {
      MostRecentIsFirst(alerts[..n]);
      var i :| 0 <= i < n && alerts[..n][i] == MostRecent(alerts[..n])
        && forall j :: 0 <= j < i ==> alerts[..n][j].receivedAt < alerts[..n][i].receivedAt;
      if alerts[n].receivedAt > alerts[i].receivedAt {
        assert forall j :: 0 <= j < n ==> alerts[j] in alerts[..n];
        assert alerts[n] == MostRecent(alerts);
      } else {
        assert alerts[i] == MostRecent(alerts);
        assert forall j :: 0 <= j < i ==> alerts[..n][j] == alerts[j];
      }
    } else {
      assert alerts[0] == MostRecent(alerts);
    }
  }

  function NewestSeen(o: Option<int>, alerts: seq<Alert>): Option<int> {
    if alerts == [] then o else Later(o, MostRecent(alerts).receivedAt)
  }

  function Polled(cfg: Config, category: string, lane: Lane, found: map<string, seq<Alert>>, mono: int): Lane {
    if !lane.cat.enabled then lane
    else if category !in found then lane.(cat := lane.cat.(openCount := 0))
    else
      var eligible := Eligible(cfg, category, found[category]);
      var counted := Unacknowledged(lane.cat.clearedAt, eligible);
      var c := lane.cat.(newestSeen := NewestSeen(lane.cat.newestSeen, eligible), openCount := |counted|);
      if counted != [] && !c.alerting
      then Lane(c.(alerting := true, lastAlert := Some(MostRecent(counted))),
                Scheduled(lane.timers, mono + ClearDelay(cfg)))
      else Lane(c, lane.timers)
  }

  // ---- clears ----

  function Cleared(lane: Lane, wall: int): Lane {
    Lane(Acknowledged(lane.cat, wall), Unscheduled(lane.timers))
  }

  // ---- the step ----

  function LaneStep(cfg: Config, category: string, lane: Lane, e: Event, v: Verdict): Lane {
    match e.action
    case Push(c, a) => if c == category then Pushed(cfg, lane, a, v, e.at.mono) else lane
    case Poll(found) => Polled(cfg, category, lane, found, e.at.mono)
    case ClearOne(c) => if c == category then Cleared(lane, e.at.wall) else lane
    case ClearAll => if lane.cat.enabled then Cleared(lane, e.at.wall) else lane
    case TimerDue(c, i) => if c == category then Woken(lane, i, e.at) else lane
    case TaskReturns(c, i) => if c == category then Returns(lane, i) else lane
    case Refresh => lane
  }

  function VerdictOf(cfg: Config, s: Core, e: Event): Verdict {
    if e.action.Push? then Judge(cfg, s, e.action.category, e.action.alert, e.at.mono) else Ignored
  }

  /** This event is a push of c that is applied. */
  predicate Accepts(cfg: Config, s: Core, e: Event, c: string) {
    e.action.Push? && e.action.category == c && VerdictOf(cfg, s, e).Accepted?
  }

  function TableAfter(s: Core, e: Event, v: Verdict): map<Pair, int> {
    if e.action.Push? && v.Accepted? && e.action.alert.key != ""
    then Recorded(s.lastPushAt, (e.action.category, e.action.alert.key), e.at.mono)
    else s.lastPushAt
  }

  function Step(cfg: Config, s: Core, e: Event): (r: Core)
    ensures r.lanes.Keys == s.lanes.Keys
    ensures forall c :: c in s.lanes ==> r.lanes[c].cat.enabled == s.lanes[c].cat.enabled
  {
    var v := VerdictOf(cfg, s, e);
    Core(map c | c in s.lanes :: LaneStep(cfg, c, s.lanes[c], e, v), TableAfter(s, e, v))
  }

  /** The state after a whole run of events. */
  function Run(cfg: Config, s: Core, es: seq<Event>): (r: Core)
    ensures r.lanes.Keys == s.lanes.Keys
    ensures forall c :: c in s.lanes ==> r.lanes[c].cat.enabled == s.lanes[c].cat.enabled
  {
    if es == [] then s else Step(cfg, Run(cfg, s, es[..|es| - 1]), es[|es| - 1])
  }

  /** Entities are notified after an accepted push, a completed poll, and any other broadcast. */
  predicate Notifies(cfg: Config, s: Core, e: Event) {
    e.action.Poll? || e.action.Refresh? || VerdictOf(cfg, s, e).Accepted?
  }

  /** A freshly built coordinator. */
  predicate IsFresh(s: Core) {
    && s.lastPushAt == map[]
    && forall c :: c in s.lanes ==> s.lanes[c] == Lane(FreshCat(s.lanes[c].cat.enabled), Timers(None, []))
  }

  /** A coordinator at the moment an instance starts: nothing seen, no task, empty table. What a
      restore brings in (watermark, count, last alert, last webhook) is arbitrary. */
  predicate IsStart(s: Core) {
    && s.lastPushAt == map[]
    && forall c :: c in s.lanes ==>
         && !s.lanes[c].cat.alerting
         && s.lanes[c].cat.newestSeen.None?
         && s.lanes[c].timers == Timers(None, [])
  }
}
