/** Auto-clear tasks over every interleaving of steps. */
module TimerSafety {
  import opened Wrappers
  import opened Models
  import opened Machine

  /** Asleep, or awaiting its persist. */
  predicate Live(task: Task) {
    task.status.Sleeping? || task.status.Persisting?
  }

  /** Every live task is the kept one, and if it is asleep it wakes at this time. */
  ghost predicate OneTask(t: Timers, wakes: Option<int>) {
    && (t.handle.Some? ==> t.handle.value < |t.tasks|)
    && (forall i: nat :: i < |t.tasks| && Live(t.tasks[i]) ==>
          t.handle == Some(i) && (t.tasks[i].status.Sleeping? ==> wakes == Some(t.tasks[i].wakeAt)))
  }

  lemma ScheduledHasOne(t: Timers, wakes: Option<int>, wakeAt: int)
    requires OneTask(t, wakes)
    ensures OneTask(Scheduled(t, wakeAt), Some(wakeAt))
    ensures var r := Scheduled(t, wakeAt); r.handle.Some? && r.tasks[r.handle.value].status.Sleeping?
  {
  }

  lemma UnscheduledHasNone(t: Timers, wakes: Option<int>)
    requires OneTask(t, wakes)
    ensures OneTask(Unscheduled(t), wakes)
    ensures Unscheduled(t).handle.None? && forall i: nat :: i < |t.tasks| ==> !Live(Unscheduled(t).tasks[i])
  {
  }

  /** The only live task is the one whose handle is kept, and it is asleep exactly while the category
      alerts. */
  ghost predicate TimerSafe(lane: Lane, wakes: Option<int>) {
    var h := lane.timers.handle;
    && OneTask(lane.timers, wakes)
    && (lane.cat.alerting <==> h.Some? && lane.timers.tasks[h.value].status.Sleeping?)
  }

  /** Some task of this category is live. */
  predicate Running(lane: Lane) {
    exists i: nat :: i < |lane.timers.tasks| && Live(lane.timers.tasks[i])
  }

  lemma WokenStaysSafe(lane: Lane, i: nat, at: Clock, wakes: Option<int>)
    requires TimerSafe(lane, wakes)
    ensures TimerSafe(Woken(lane, i, at), wakes) && TimerSafe(Returns(lane, i), wakes)
  {
  }

  /** This event, judged v, starts a fresh auto-clear task for the category c with this lane. */
  predicate Starts(cfg: Config, c: string, lane: Lane, e: Event, v: Verdict) {
    match e.action
    case Push(d, _) => d == c && v.Accepted?
    case Poll(found) =>
      && lane.cat.enabled && !lane.cat.alerting && c in found
      && Unacknowledged(lane.cat.clearedAt, Eligible(cfg, c, found[c])) != []
    case _ => false
  }

  predicate Reschedules(cfg: Config, s: Core, e: Event, c: string)
    requires c in s.lanes
  {
    Starts(cfg, c, s.lanes[c], e, VerdictOf(cfg, s, e))
  }

  /** The monotonic time of the last (re)schedule of c in a run. */
  function LastSchedule(cfg: Config, s: Core, es: seq<Event>, c: string): Option<int>
    requires c in s.lanes
  {
    if es == [] then None
    else
      var pre, e := es[..|es| - 1], es[|es| - 1];
      if Reschedules(cfg, Run(cfg, s, pre), e, c) then Some(e.at.mono) else LastSchedule(cfg, s, pre, c)
  }

  /** When a task started by the last schedule wakes. */
  function WakesAt(cfg: Config, last: Option<int>): Option<int> {
    if last.Some? then Some(last.value + ClearDelay(cfg)) else None
  }

  lemma LaneStaysSafe(cfg: Config, c: string, lane: Lane, e: Event, v: Verdict, last: Option<int>)
    requires TimerSafe(lane, WakesAt(cfg, last))
    ensures TimerSafe(LaneStep(cfg, c, lane, e, v),
                      WakesAt(cfg, if Starts(cfg, c, lane, e, v) then Some(e.at.mono) else last))
  {
    hide Eligible, Unacknowledged, MostRecent, NewestSeen, ClearDelay, Scheduled, Unscheduled, Woken, Returns;
    var t := lane.timers;
    match e.action
    case TimerDue(_, i) => WokenStaysSafe(lane, i, e.at, WakesAt(cfg, last));
    case TaskReturns(_, i) => WokenStaysSafe(lane, i, e.at, WakesAt(cfg, last));
    case _ =>
      hide OneTask;
      ScheduledHasOne(t, WakesAt(cfg, last), e.at.mono + ClearDelay(cfg));
      UnscheduledHasNone(t, WakesAt(cfg, last));
  }

  lemma TimerStep(cfg: Config, s: Core, e: Event, c: string, last: Option<int>)
    requires c in s.lanes && TimerSafe(s.lanes[c], WakesAt(cfg, last))
    ensures TimerSafe(Step(cfg, s, e).lanes[c],
                      WakesAt(cfg, if Reschedules(cfg, s, e, c) then Some(e.at.mono) else last))
  {
    hide VerdictOf, LaneStep, TimerSafe, Starts, WakesAt;
    LaneStaysSafe(cfg, c, s.lanes[c], e, VerdictOf(cfg, s, e), last);
  }

  /** Over any run of an instance each category has at most one live task, it is the one whose handle
      is kept, it is asleep exactly while the category alerts, and it wakes one delay after the last
      schedule. */
  lemma {:induction false} TimersAlwaysSafe(cfg: Config, s: Core, es: seq<Event>, c: string)
    requires IsStart(s) && c in s.lanes
    ensures TimerSafe(Run(cfg, s, es).lanes[c], WakesAt(cfg, LastSchedule(cfg, s, es, c)))
  {
    hide Step, Reschedules;
    if es != [] {
      var pre, e := es[..|es| - 1], es[|es| - 1];
      TimersAlwaysSafe(cfg, s, pre, c);
      TimerStep(cfg, Run(cfg, s, pre), e, c, LastSchedule(cfg, s, pre, c));
    }
  }

  /** No sleeping task is overdue at this monotonic time. */
  ghost predicate OnTime(s: Core, now: int) {
    forall c, i: nat | c in s.lanes && i < |s.lanes[c].timers.tasks| ::
      s.lanes[c].timers.tasks[i].status.Sleeping? ==> now <= s.lanes[c].timers.tasks[i].wakeAt
  }

  /** With timers fired on time no category is alerting later than its last (re)schedule plus the
      configured delay. */
  lemma AlertingHasADeadline(cfg: Config, s: Core, es: seq<Event>, c: string, now: int)
    requires IsStart(s) && c in s.lanes && OnTime(Run(cfg, s, es), now)
    requires Run(cfg, s, es).lanes[c].cat.alerting
    ensures LastSchedule(cfg, s, es, c).Some?
    ensures now <= LastSchedule(cfg, s, es, c).value + cfg.clearTimeoutMinutes * 60 * 1000
  {
    hide Run, LastSchedule;
    TimersAlwaysSafe(cfg, s, es, c);
  }

  /** Liveness: while a category alerts, a wake-up clears it exactly when it is the kept task's and
      one delay has passed since the last schedule; any other wake-up leaves it as it was. */
  lemma WakingIsExact(cfg: Config, s: Core, es: seq<Event>, c: string, i: nat, at: Clock)
    requires IsStart(s) && c in s.lanes
    ensures var lane, last := Run(cfg, s, es).lanes[c], LastSchedule(cfg, s, es, c);
            var next := Step(cfg, Run(cfg, s, es), Event(at, TimerDue(c, i))).lanes[c];
            && (lane.cat.alerting ==> last.Some?)
            && (lane.cat.alerting ==>
                  (!next.cat.alerting <==>
                    lane.timers.handle == Some(i) && last.value + cfg.clearTimeoutMinutes * 60 * 1000 <= at.mono))
            && (next.cat.alerting == lane.cat.alerting ==> next == lane)
            && (next.cat.alerting != lane.cat.alerting ==>
                  var tasks := lane.timers.tasks;
                  && i < |tasks|
                  && next.timers == Timers(Some(i), tasks[i := tasks[i].(status := Persisting)]))
  {
    hide Run, LastSchedule, Judge;
    TimersAlwaysSafe(cfg, s, es, c);
  }

  // ---- when a task is live ----

  /** A manual clear of c, or the end of the persist its task awaited. */
  predicate Stops(lane: Lane, e: Event, c: string) {
    match e.action
    case ClearOne(d) => d == c
    case ClearAll => lane.cat.enabled
    case TaskReturns(d, i) => d == c && i < |lane.timers.tasks| && lane.timers.tasks[i].status.Persisting?
    case _ => false
  }

  lemma ReturnedTask(lane: Lane, i: nat, wakes: Option<int>)
    requires OneTask(lane.timers, wakes)
    ensures Running(Returns(lane, i))
            <==> Running(lane) && !(i < |lane.timers.tasks| && lane.timers.tasks[i].status.Persisting?)
  {
    if j: nat :| j < |lane.timers.tasks| && Live(lane.timers.tasks[j]) && j != i {
      assert Live(Returns(lane, i).timers.tasks[j]);
    }
    if i < |lane.timers.tasks| && lane.timers.tasks[i].status.Sleeping? {
      assert Live(Returns(lane, i).timers.tasks[i]);
    }
  }

  lemma WokenTask(lane: Lane, i: nat, at: Clock, wakes: Option<int>)
    requires TimerSafe(lane, wakes)
    ensures Running(Woken(lane, i, at)) <==> Running(lane)
  {
    if j: nat :| j < |lane.timers.tasks| && Live(lane.timers.tasks[j]) {
      assert Live(Woken(lane, i, at).timers.tasks[j]);
    }
  }

  lemma RunningLane(cfg: Config, c: string, lane: Lane, e: Event, v: Verdict, wakes: Option<int>)
    requires TimerSafe(lane, wakes)
    ensures Running(LaneStep(cfg, c, lane, e, v))
            <==> Starts(cfg, c, lane, e, v) || (Running(lane) && !Stops(lane, e, c))
  {
    hide Eligible, Unacknowledged, MostRecent, NewestSeen, ClearDelay, Scheduled, Unscheduled, Woken, Returns,
      AfterPush, Running, OneTask;
    var next := LaneStep(cfg, c, lane, e, v);
    ScheduledIsRunning(lane.timers, next.cat, e.at.mono + ClearDelay(cfg));
    UnscheduledIsIdle(lane, next.cat, wakes);
    SameTasks(lane, next.cat);
    match e.action
    case TimerDue(_, i) => WokenTask(lane, i, e.at, wakes);
    case TaskReturns(_, i) => ReturnedTask(lane, i, wakes);
    case _ =>
  }

  lemma UnscheduledIsIdle(lane: Lane, cat: Cat, wakes: Option<int>)
    requires OneTask(lane.timers, wakes)
    ensures !Running(Lane(cat, Unscheduled(lane.timers)))
  {
  }

  /** When c has a live task, over any run of an instance: a schedule starts one, and only a manual
      clear or the end of its persist ends it. */
  lemma RunningStep(cfg: Config, s: Core, es: seq<Event>, e: Event, c: string)
    requires IsStart(s) && c in s.lanes
    ensures var mid := Run(cfg, s, es);
            Running(Step(cfg, mid, e).lanes[c])
            <==> Reschedules(cfg, mid, e, c) || (Running(mid.lanes[c]) && !Stops(mid.lanes[c], e, c))
  {
    hide Run, LaneStep, Starts, Running, Stops, TimerSafe, VerdictOf;
    TimersAlwaysSafe(cfg, s, es, c);
    RunningLane(cfg, c, Run(cfg, s, es).lanes[c], e, VerdictOf(cfg, Run(cfg, s, es), e),
                WakesAt(cfg, LastSchedule(cfg, s, es, c)));
  }

  // ---- after async_shutdown ----

  /** The coordinator after async_shutdown: every kept task cancelled and forgotten. */
  function ShutDown(s: Core): Core {
    s.(lanes := map c | c in s.lanes :: s.lanes[c].(timers := Unscheduled(s.lanes[c].timers)))
  }

  lemma WokenStaysIdle(lane: Lane, i: nat, at: Clock)
    requires !Running(lane)
    ensures !Running(Woken(lane, i, at)) && !Running(Returns(lane, i))
  {
  }

  lemma UnscheduledStaysIdle(lane: Lane, cat: Cat)
    requires !Running(lane)
    ensures !Running(Lane(cat, Unscheduled(lane.timers)))
  {
  }

  lemma ScheduledIsRunning(t: Timers, cat: Cat, wakeAt: int)
    ensures Running(Lane(cat, Scheduled(t, wakeAt)))
  {
    assert Scheduled(t, wakeAt).tasks[|t.tasks|] == Task(wakeAt, Sleeping);
  }

  /** With no task of c live, a step starts one exactly when it applies a push of c, or a poll of it
      that makes it alert. */
  lemma IdleStep(cfg: Config, s: Core, e: Event, c: string)
    requires c in s.lanes && !Running(s.lanes[c])
    ensures Running(Step(cfg, s, e).lanes[c]) <==> Reschedules(cfg, s, e, c)
  {
    hide Eligible, Unacknowledged, MostRecent, NewestSeen, ClearDelay, Scheduled, Unscheduled, Woken, Returns,
      AfterPush, VerdictOf, Running;
    var lane, next := s.lanes[c], Step(cfg, s, e).lanes[c];
    ScheduledIsRunning(lane.timers, next.cat, e.at.mono + ClearDelay(cfg));
    UnscheduledStaysIdle(lane, next.cat);
    SameTasks(lane, next.cat);
    match e.action
    case TimerDue(_, i) => WokenStaysIdle(lane, i, e.at);
    case TaskReturns(_, i) => WokenStaysIdle(lane, i, e.at);
    case _ =>
  }

  lemma SameTasks(lane: Lane, cat: Cat)
    ensures Running(Lane(cat, lane.timers)) <==> Running(lane)
  {
  }

  predicate IdleThroughout(cfg: Config, s: Core, es: seq<Event>, c: string)
    requires c in s.lanes
  {
    !Running(Run(cfg, s, es).lanes[c]) && (es == [] || IdleThroughout(cfg, s, es[..|es| - 1], c))
  }

  lemma {:induction false} IdleExactlyUntilRescheduled(cfg: Config, s: Core, es: seq<Event>, c: string)
    requires c in s.lanes && !Running(s.lanes[c])
    ensures IdleThroughout(cfg, s, es, c) <==> LastSchedule(cfg, s, es, c).None?
  {
    hide Step, Reschedules, Running;
    if es != [] {
      var pre := es[..|es| - 1];
      IdleExactlyUntilRescheduled(cfg, s, pre, c);
      if IdleThroughout(cfg, s, pre, c) {
        assert !Running(Run(cfg, s, pre).lanes[c]);
        IdleStep(cfg, Run(cfg, s, pre), es[|es| - 1], c);
      }
    }
  }

  /** After a shutdown at any moment of an instance no task is live, and none is through any later run
      exactly when that run applies no push of c and no poll that makes it alert: a push or poll still
      landing starts a task again. */
  lemma ShutdownStopsTasksExactly(cfg: Config, s: Core, es: seq<Event>, later: seq<Event>, c: string)
    requires IsStart(s) && c in s.lanes
    ensures var down := ShutDown(Run(cfg, s, es));
            && !Running(down.lanes[c])
            && (IdleThroughout(cfg, down, later, c) <==> LastSchedule(cfg, down, later, c).None?)
  {
    hide Run, LastSchedule, IdleThroughout;
    TimersAlwaysSafe(cfg, s, es, c);
    var t := Run(cfg, s, es).lanes[c].timers;
    UnscheduledHasNone(t, WakesAt(cfg, LastSchedule(cfg, s, es, c)));
    IdleExactlyUntilRescheduled(cfg, ShutDown(Run(cfg, s, es)), later, c);
  }
}
