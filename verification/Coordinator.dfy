/** The coordinator object. Every method is one stretch of code between awaits, proved equal to one
    step of the machine. */
module Coordinator {
  import opened Wrappers
  import opened Models
  import opened Machine
  import opened SystemLog
  import opened Client
  import opened Polling
  import Constants
  import Persistence
  import Probing
  import TimerSafety

  predicate Concerns(e: Event, category: string) {
    match e.action
    case Push(c, _) => c == category
    case ClearOne(c) => c == category
    case TimerDue(c, _) => c == category
    case TaskReturns(c, _) => c == category
    case _ => false
  }

  /** A state that differs from s as one step does in this category, and nowhere else. */
  lemma OneLaneStep(cfg: Config, s: Core, e: Event, category: string, r: Core)
    requires Concerns(e, category) && r.lanes.Keys == s.lanes.Keys
    requires forall c :: c in s.lanes && c != category ==> r.lanes[c] == s.lanes[c]
    requires category in s.lanes ==>
               r.lanes[category] == LaneStep(cfg, category, s.lanes[category], e, VerdictOf(cfg, s, e))
    requires r.lastPushAt == TableAfter(s, e, VerdictOf(cfg, s, e))
    ensures r == Step(cfg, s, e)
  {
    hide Pushed, Cleared, Woken, Returns, VerdictOf, TableAfter;
    assert r.lanes == Step(cfg, s, e).lanes;
  }

  lemma EveryLaneStep(cfg: Config, s: Core, e: Event, r: Core)
    requires !e.action.Push? && r.lanes.Keys == s.lanes.Keys && r.lastPushAt == s.lastPushAt
    requires forall c :: c in s.lanes ==> r.lanes[c] == LaneStep(cfg, c, s.lanes[c], e, Ignored)
    ensures r == Step(cfg, s, e)
  {
    hide LaneStep;
    assert r.lanes == Step(cfg, s, e).lanes;
  }

  lemma ClearedEveryLane(cfg: Config, s: Core, at: Clock, r: Core)
    requires r.lanes.Keys == s.lanes.Keys && r.lastPushAt == s.lastPushAt
    requires forall c :: c in s.lanes ==>
               r.lanes[c] == if s.lanes[c].cat.enabled then Cleared(s.lanes[c], at.wall) else s.lanes[c]
    ensures r == Step(cfg, s, Event(at, ClearAll))
  {
    hide Cleared, Step;
    EveryLaneStep(cfg, s, Event(at, ClearAll), r);
  }

  class UniFiAlertsCoordinator {
    const cfg: Config
    const site: string
    const client: UniFiClient
    const states: map<string, CategoryState>
    /** _clear_tasks: the handle kept per category. */
    var clearTasks: map<string, nat>
    /** The event loop's auto-clear tasks, per category in creation order. */
    var timers: map<string, seq<Task>>
    var lastPushAt: map<Pair, int>
    var hasSystemLog: Option<bool>
    var probeFailCount: nat
    var probeBackoffUntil: Option<int>
    var unrecognisedKeys: map<string, int>
    var seenUnknownKeys: set<string>

    /** No two categories share a state object. */
    ghost predicate Unshared() {
      forall c, d :: c in states && d in states && c != d ==> states[c] != states[d]
    }

    ghost predicate Valid()
      reads this`clearTasks, this`timers
    {
      && timers.Keys == states.Keys
      && clearTasks.Keys <= states.Keys
      && (forall c :: c in clearTasks ==> clearTasks[c] < |timers[c]|)
      && Unshared()
    }

    ghost function TimersOf(c: string): Timers
      requires Valid() && c in states
      reads this`clearTasks, this`timers
    {
      Timers(if c in clearTasks then Some(clearTasks[c]) else None, timers[c])
    }

    ghost function LaneOf(c: string): Lane
      requires Valid() && c in states
      reads this`clearTasks, this`timers, states.Values
    {
      Lane(states[c].View(), TimersOf(c))
    }

    ghost function View(): Core
      requires Valid()
      reads this`clearTasks, this`timers, this`lastPushAt, states.Values
    {
      Core(map c | c in states :: LaneOf(c), lastPushAt)
    }

    function ProbeView(): Probing.Probe
      reads this`hasSystemLog, this`probeFailCount, this`probeBackoffUntil
    {
      Probing.Probe(hasSystemLog, probeFailCount, probeBackoffUntil)
    }

    function SourceView(): Source
      reads this`hasSystemLog, this`probeFailCount, this`probeBackoffUntil, this`unrecognisedKeys, client
    {
      Source(ProbeView(), client.View(), unrecognisedKeys)
    }

    constructor (cfg: Config, site: string, client: UniFiClient, categories: seq<string>, enabled: seq<string>)
      ensures this.site == site && this.client == client
      ensures SourceView() == Source(Probing.UNPROBED, client.View(), map[]) && seenUnknownKeys == {}
      ensures Valid() && IsFresh(View()) && fresh(states.Values)
      ensures this.cfg == cfg && states.Keys == set c | c in categories
      ensures forall c :: c in states ==> LaneOf(c).cat.enabled == (c in enabled)
    {
      var built: map<string, CategoryState> := map[];
      for i := 0 to |categories|
        invariant built.Keys == set c | c in categories[..i]
        invariant forall c :: c in built ==> fresh(built[c]) && built[c].View() == FreshCat(c in enabled)
        invariant forall c, d :: c in built && d in built && c != d ==> built[c] != built[d]
      {
        var state := new CategoryState(categories[i], categories[i] in enabled);
        built := built[categories[i] := state];
      }
      assert categories[..|categories|] == categories;
      this.cfg, this.states, this.site, this.client := cfg, built, site, client;
      hasSystemLog, probeFailCount, probeBackoffUntil := None, 0, None;
      unrecognisedKeys, seenUnknownKeys := map[], {};
      clearTasks, lastPushAt := map[], map[];
      timers := map c | c in built :: [];
    }

    // ---- auto-clear tasks ----

    method CancelTaskOf(category: string)
      requires Valid() && category in states
      modifies this`timers
      ensures Valid()
      ensures forall c :: c in states ==>
                TimersOf(c) == var t := old(TimersOf(c));
                               if c == category then Timers(t.handle, CancelTask(t.tasks, t.handle)) else t
    {
      hide Unshared;
      if category in clearTasks {
        var tasks, i := timers[category], clearTasks[category];
        if tasks[i].status in {Sleeping, Persisting} {
          timers := timers[category := tasks[i := tasks[i].(status := Cancelled)]];
        }
      }
    }

    method StartTask(category: string, task: Task)
      requires Valid() && category in states
      modifies this`timers, this`clearTasks
      ensures Valid()
      ensures forall c :: c in states ==>
                TimersOf(c) == var t := old(TimersOf(c));
                               if c == category then Timers(Some(|t.tasks|), t.tasks + [task]) else t
    {
      hide Unshared;
      var tasks := timers[category];
      clearTasks, timers := clearTasks[category := |tasks|], timers[category := tasks + [task]];
    }

    method ScheduleClear(category: string, mono: int)
      requires Valid() && category in states
      modifies this`timers, this`clearTasks
      ensures Valid()
      ensures forall c :: c in states ==>
                TimersOf(c) == if c == category then Scheduled(old(TimersOf(c)), mono + ClearDelay(cfg))
                               else old(TimersOf(c))
    {
      hide CancelTask, Valid, TimersOf;
      CancelTaskOf(category);
      StartTask(category, Task(mono + cfg.clearTimeoutMinutes * 60 * 1000, Sleeping));
    }

    method CancelClear(category: string)
      requires Valid() && category in states
      modifies this`timers, this`clearTasks
      ensures Valid()
      ensures forall c :: c in states ==>
                TimersOf(c) == if c == category then Unscheduled(old(TimersOf(c))) else old(TimersOf(c))
    {
      hide CancelTask, Unshared;
      CancelTaskOf(category);
      clearTasks := clearTasks - {category};
    }

    method Wake(category: string, task: nat, at: Clock) returns (persist: bool)
      requires Valid() && category in states
      modifies this`timers, states[category]
      ensures Valid() && persist == (old(Due(TimersOf(category), task, at.mono)) && old(states[category].isAlerting))
      ensures LaneOf(category) == Woken(old(LaneOf(category)), task, at)
      ensures forall c :: c in states && c != category ==> LaneOf(c) == old(LaneOf(c))
    {
      hide Acknowledged;
      persist := false;
      var tasks, state := timers[category], states[category];
      if task < |tasks| && tasks[task].status.Sleeping? && tasks[task].wakeAt <= at.mono {
        if state.isAlerting {
          state.Clear(at.wall);
          timers := timers[category := tasks[task := tasks[task].(status := Persisting)]];
          persist := true;
        } else {
          timers := timers[category := tasks[task := tasks[task].(status := Returned)]];
        }
      }
    }

    /** _auto_clear once its sleep returns, up to the awaited persist. */
    method AutoClear(category: string, task: nat, at: Clock) returns (persist: bool)
      requires Valid()
      modifies this`timers, this`clearTasks, this`lastPushAt, states.Values
      ensures Valid() && View() == Step(cfg, old(View()), Event(at, TimerDue(category, task)))
      ensures persist == (category in states
                          && old(states[category].isAlerting && Due(TimersOf(category), task, at.mono)))
    {
      hide Woken, Step, Unshared;
      persist := false;
      if category in states {
        persist := Wake(category, task, at);
      }
      OneLaneStep(cfg, old(View()), Event(at, TimerDue(category, task)), category, View());
    }

    method EndTask(category: string, task: nat)
      requires Valid() && category in states
      modifies this`timers
      ensures Valid()
      ensures LaneOf(category) == Returns(old(LaneOf(category)), task)
      ensures forall c :: c in states && c != category ==> LaneOf(c) == old(LaneOf(c))
    {
      hide Unshared;
      var tasks := timers[category];
      if task < |tasks| && tasks[task].status.Persisting? {
        timers := timers[category := tasks[task := tasks[task].(status := Returned)]];
      }
    }

    /** The persist an auto-clear awaited is over, written or not. */
    method FinishAutoClear(category: string, task: nat, at: Clock)
      requires Valid()
      modifies this`timers
      ensures Valid() && View() == Step(cfg, old(View()), Event(at, TaskReturns(category, task)))
    {
      hide Returns, Step, Unshared;
      if category in states {
        EndTask(category, task);
      }
      OneLaneStep(cfg, old(View()), Event(at, TaskReturns(category, task)), category, View());
    }

    method CancelEach()
      requires Valid()
      modifies this`timers
      ensures Valid()
      ensures forall c :: c in states && c in clearTasks ==>
                TimersOf(c) == var t := old(TimersOf(c)); Timers(t.handle, CancelTask(t.tasks, t.handle))
      ensures forall c :: c in states && c !in clearTasks ==> TimersOf(c) == old(TimersOf(c))
    {
      hide Unshared, CancelTask, TimersOf;
      var left := clearTasks.Keys;
      while left != {}
        invariant Valid() && left <= clearTasks.Keys
        invariant forall c :: c in states && c in clearTasks && c !in left ==>
                    TimersOf(c) == var t := old(TimersOf(c)); Timers(t.handle, CancelTask(t.tasks, t.handle))
        invariant forall c :: c in states && (c !in clearTasks || c in left) ==> TimersOf(c) == old(TimersOf(c))
        decreases left
      {
        var c :| c in left;
        left := left - {c};
        CancelTaskOf(c);
      }
    }

    /** async_shutdown: every kept task is cancelled and forgotten. */
    method Shutdown()
      requires Valid()
      modifies this`timers, this`clearTasks
      ensures Valid() && clearTasks == map[] && View() == TimerSafety.ShutDown(old(View()))
    {
      hide Unshared;
      CancelEach();
      clearTasks := map[];
      assert forall c :: c in states ==> TimersOf(c) == Unscheduled(old(TimersOf(c)));
      hide Unscheduled, TimersOf;
      assert View().lanes == TimerSafety.ShutDown(old(View())).lanes;
    }

    // ---- the push path ----

    method AcceptPush(category: string, alert: Alert, mono: int)
      requires Valid() && category in states
      modifies this`timers, this`clearTasks, states[category]
      ensures Valid()
      ensures LaneOf(category) == Pushed(cfg, old(LaneOf(category)), alert, Accepted, mono)
      ensures forall c :: c in states && c != category ==> LaneOf(c) == old(LaneOf(c))
    {
      hide Passes, Scheduled;
      var state := states[category];
      state.ApplyAlert(alert);
      state.lastWebhookAt := Some(alert.receivedAt);
      if state.lastClearedAt.None? || alert.receivedAt > state.lastClearedAt.value {
        state.openCount := state.openCount + 1;
      }
      assert state.View() == AfterPush(old(state.View()), alert);
      hide AfterPush;
      ScheduleClear(category, mono);
    }

    /** The dedup test, and the table update when the push is not a duplicate. */
    method Deduplicate(pair: Pair, mono: int) returns (duplicate: bool)
      requires Valid()
      modifies this`lastPushAt
      ensures Valid() && duplicate == Suppressed(old(lastPushAt), pair, mono)
      ensures lastPushAt == if duplicate then old(lastPushAt) else Recorded(old(lastPushAt), pair, mono)
    {
      if pair in lastPushAt && mono - lastPushAt[pair] < DEDUP_WINDOW {
        return true;
      }
      var cutoff := mono - DEDUP_WINDOW;
      lastPushAt := map q | q in lastPushAt && lastPushAt[q] >= cutoff :: lastPushAt[q];
      lastPushAt := lastPushAt[pair := mono];
      return false;
    }

    /** push_alert for a category that exists and is enabled. */
    method Receive(category: string, alert: Alert, mono: int) returns (verdict: Verdict)
      requires Valid() && category in states && states[category].enabled
      modifies this`timers, this`clearTasks, this`lastPushAt, states[category]
      ensures Valid() && verdict == Judge(cfg, old(View()), category, alert, mono)
      ensures LaneOf(category) == Pushed(cfg, old(LaneOf(category)), alert, verdict, mono)
      ensures forall c :: c in states && c != category ==> LaneOf(c) == old(LaneOf(c))
      ensures lastPushAt == if verdict.Accepted? && alert.key != ""
                            then Recorded(old(lastPushAt), (category, alert.key), mono)
                            else old(lastPushAt)
    {
      hide Passes, Scheduled, AfterPush, Recorded, Suppressed;
      if !Passes(cfg, category, alert) {
        var state := states[category];
        state.RecordFiltered(alert);
        state.lastWebhookAt := Some(alert.receivedAt);
        return BelowMinimum;
      }
      if alert.key != "" {
        var duplicate := Deduplicate((category, alert.key), mono);
        if duplicate {
          return Duplicate;
        }
      }
      AcceptPush(category, alert, mono);
      return Accepted;
    }

    method PushAlert(category: string, alert: Alert, at: Clock) returns (notify: bool)
      requires Valid()
      modifies this`timers, this`clearTasks, this`lastPushAt, states.Values
      ensures Valid() && View() == Step(cfg, old(View()), Event(at, Push(category, alert)))
      ensures notify == Notifies(cfg, old(View()), Event(at, Push(category, alert)))
    {
      hide Pushed, Step, Recorded, Passes, Suppressed, Unshared;
      ghost var before := View();
      var verdict := Ignored;
      if category in states && states[category].enabled {
        verdict := Receive(category, alert, at.mono);
      }
      notify := verdict.Accepted?;
      if category in states && !states[category].enabled {
        PushedIgnored(before.lanes[category], alert, at.mono);
      }
      OneLaneStep(cfg, before, Event(at, Push(category, alert)), category, View());
    }

    lemma PushedIgnored(lane: Lane, alert: Alert, mono: int)
      ensures Pushed(cfg, lane, alert, Ignored, mono) == lane
    {
    }

    // ---- the poll path, after the fetch ----

    method SplitEligible(category: string, alerts: seq<Alert>) returns (eligible: seq<Alert>)
      ensures eligible == Eligible(cfg, category, alerts)
    {
      eligible := [];
      for i := 0 to |alerts|
        invariant eligible == Eligible(cfg, category, alerts[..i])
      {
        assert alerts[..i + 1][..i] == alerts[..i];
        if Passes(cfg, category, alerts[i]) {
          eligible := eligible + [alerts[i]];
        }
      }
      assert alerts[..|alerts|] == alerts;
    }

    method TrackNewestSeen(state: CategoryState, alerts: seq<Alert>)
      modifies state
      ensures state.View() == old(state.View()).(newestSeen := NewestSeen(old(state.View()).newestSeen, alerts))
    {
      hide MostRecent;
      if alerts != [] {
        var newest := MostRecent(alerts).receivedAt;
        if state.lastAlarmReceivedAt.None? || newest > state.lastAlarmReceivedAt.value {
          state.lastAlarmReceivedAt := Some(newest);
        }
      }
    }

    method PollCategory(category: string, alerts: seq<Alert>, mono: int)
      requires Valid() && category in states && states[category].enabled
      modifies this`timers, this`clearTasks, states[category]
      ensures Valid()
      ensures LaneOf(category) == Polled(cfg, category, old(LaneOf(category)), map[category := alerts], mono)
      ensures forall c :: c in states && c != category ==> LaneOf(c) == old(LaneOf(c))
    {
      hide Passes, Scheduled, MostRecent, Eligible, Unacknowledged, NewestSeen;
      var state := states[category];
      var eligible := SplitEligible(category, alerts);
      TrackNewestSeen(state, eligible);
      var counted := Unacknowledged(state.lastClearedAt, eligible);
      state.openCount := |counted|;
      if counted != [] && !state.isAlerting {
        state.isAlerting := true;
        state.lastAlert := Some(MostRecent(counted));
        ScheduleClear(category, mono);
      }
    }

    lemma PolledAlone(c: string, lane: Lane, found: map<string, seq<Alert>>, mono: int)
      requires c in found
      ensures Polled(cfg, c, lane, map[c := found[c]], mono) == Polled(cfg, c, lane, found, mono)
      ensures !lane.cat.enabled ==> Polled(cfg, c, lane, found, mono) == lane
    {
      hide Eligible, Unacknowledged, MostRecent, Scheduled;
    }

    lemma PolledWhenAbsent(c: string, lane: Lane, found: map<string, seq<Alert>>, mono: int)
      requires c !in found
      ensures Polled(cfg, c, lane, found, mono) == Polled(cfg, c, lane, map[], 0)
    {
    }

    method PollOne(category: string, found: map<string, seq<Alert>>, mono: int)
      requires Valid() && category in found
      modifies this`timers, this`clearTasks, states.Values
      ensures Valid()
      ensures forall c :: c in states ==>
                LaneOf(c) == if c == category then Polled(cfg, c, old(LaneOf(c)), found, mono) else old(LaneOf(c))
    {
      hide Polled;
      if category in states {
        PolledAlone(category, LaneOf(category), found, mono);
        if states[category].enabled {
          PollCategory(category, found[category], mono);
        }
      }
    }

    method ZeroOpenCount(category: string)
      requires Valid() && category in states
      modifies states[category]
      ensures Valid()
      ensures forall c :: c in states ==>
                LaneOf(c) == if c == category then Polled(cfg, c, old(LaneOf(c)), map[], 0) else old(LaneOf(c))
    {
      if states[category].enabled {
        states[category].openCount := 0;
      }
    }

    method PollEach(found: map<string, seq<Alert>>, mono: int)
      requires Valid()
      modifies this`timers, this`clearTasks, states.Values
      ensures Valid()
      ensures forall c :: c in states ==>
                LaneOf(c) == if c in found then Polled(cfg, c, old(LaneOf(c)), found, mono) else old(LaneOf(c))
    {
      hide Polled;
      var left := found.Keys;
      while left != {}
        invariant Valid() && left <= found.Keys
        invariant forall c :: c in states ==>
                    LaneOf(c) == if c in found && c !in left then Polled(cfg, c, old(LaneOf(c)), found, mono)
                                 else old(LaneOf(c))
        decreases left
      {
        var category :| category in left;
        left := left - {category};
        PollOne(category, found, mono);
      }
    }

    method ZeroEach(quiet: set<string>)
      requires Valid() && quiet <= states.Keys
      modifies states.Values
      ensures Valid()
      ensures forall c :: c in states ==>
                LaneOf(c) == if c in quiet then Polled(cfg, c, old(LaneOf(c)), map[], 0) else old(LaneOf(c))
    {
      hide Polled;
      var left := quiet;
      while left != {}
        invariant Valid() && left <= quiet
        invariant forall c :: c in states ==>
                    LaneOf(c) == if c in quiet && c !in left then Polled(cfg, c, old(LaneOf(c)), map[], 0)
                                 else old(LaneOf(c))
        decreases left
      {
        var category :| category in left;
        left := left - {category};
        ZeroOpenCount(category);
      }
    }

    method ApplyPoll(found: map<string, seq<Alert>>, at: Clock)
      requires Valid()
      modifies this`timers, this`clearTasks, this`lastPushAt, states.Values
      ensures Valid() && View() == Step(cfg, old(View()), Event(at, Poll(found)))
    {
      hide Polled, Step, Unshared;
      PollEach(found, at.mono);
      ZeroEach(states.Keys - found.Keys);
      forall c | c in states ensures LaneOf(c) == Polled(cfg, c, old(LaneOf(c)), found, at.mono) {
        if c !in found {
          PolledWhenAbsent(c, old(LaneOf(c)), found, at.mono);
        }
      }
      EveryLaneStep(cfg, old(View()), Event(at, Poll(found)), View());
    }

    // ---- the poll path, the fetch ----

    method ProbeHasSystemLog(use: Probing.Use) returns (v2: bool)
      modifies this`hasSystemLog, this`probeFailCount, this`probeBackoffUntil
      ensures ProbeView() == Probing.Consulted(old(ProbeView()), use)
      ensures v2 == Probing.SaysV2(old(ProbeView()), use)
    {
      if hasSystemLog.Some? {
        if hasSystemLog == Some(false) && probeBackoffUntil.Some? {
          if use.askedAt >= probeBackoffUntil.value {
            hasSystemLog, probeFailCount, probeBackoffUntil := None, 0, None;
          } else {
            return false;
          }
        } else {
          return hasSystemLog.value;
        }
      }
      match use.outcome {
        case Available =>
          hasSystemLog, probeFailCount, probeBackoffUntil := Some(true), 0, None;
          return true;
        case NotImplemented =>
          hasSystemLog, probeFailCount := Some(false), 0;
          return false;
        case Transient =>
          probeFailCount := probeFailCount + 1;
          if probeFailCount >= Probing.PROBE_FAIL_LIMIT {
            hasSystemLog, probeBackoffUntil := Some(false), Some(use.answeredAt + Probing.PROBE_RETRY_AFTER);
          }
          return false;
      }
    }

    method OldestWatermark() returns (oldest: Option<int>)
      requires Valid()
      ensures IsOldest(View().lanes, oldest)
    {
      oldest := None;
      var left := states.Keys;
      ghost var lanes := View().lanes;
      assert forall c :: c in states ==> lanes[c] == LaneOf(c);
      while left != {}
        invariant left <= states.Keys
        invariant oldest.None? ==> forall c :: Marked(lanes, c) ==> c in left
        invariant oldest.Some? ==> exists c :: Marked(lanes, c) && lanes[c].cat.clearedAt == oldest
        invariant oldest.Some? ==>
                    forall c :: Marked(lanes, c) && c !in left ==> oldest.value <= lanes[c].cat.clearedAt.value
        decreases left
      {
        var category :| category in left;
        left := left - {category};
        var state := states[category];
        if state.enabled && state.lastClearedAt.Some? {
          assert Marked(lanes, category);
          if oldest.None? || state.lastClearedAt.value < oldest.value {
            oldest := state.lastClearedAt;
          }
        }
      }
    }

    method SortEvent(event: Record, now: int, found: map<string, seq<Alert>>) returns (more: map<string, seq<Alert>>)
      modifies this`unrecognisedKeys, this`seenUnknownKeys
      ensures more == Placed(found, AlertOf(event, now))
      ensures unrecognisedKeys == Noted(old(unrecognisedKeys), Item(event.key, AlertOf(event, now)))
      ensures seenUnknownKeys == old(seenUnknownKeys) + UndocumentedKey(event)
    {
      hide Constants.ClassifyEventKey, AlertOf;
      if Constants.ClassifyEventKey(event.key, "") == "" && event.key != "" {
        seenUnknownKeys := seenUnknownKeys + {event.key};
      }
      var alert := AlertOf(event, now);
      more := found;
      if alert.category == "" {
        if event.key != "" {
          unrecognisedKeys := unrecognisedKeys[event.key := Get(unrecognisedKeys, event.key, 0) + 1];
        }
      } else {
        more := found[alert.category := Get(found, alert.category, []) + [alert]];
      }
    }

    /** Parsing, sorting and tallying the events of a v2 fetch. */
    method SortEvents(events: seq<Record>, now: int) returns (found: map<string, seq<Alert>>)
      modifies this`unrecognisedKeys, this`seenUnknownKeys
      ensures found == Categorised(ItemsOf(events, now))
      ensures unrecognisedKeys == Tally(old(unrecognisedKeys), UnclassifiedKeys(ItemsOf(events, now)))
      ensures seenUnknownKeys == old(seenUnknownKeys) + UndocumentedKeys(events)
    {
      hide Categorised, UnclassifiedKeys, Tally, AlertOf, Placed, Noted, UndocumentedKey, UndocumentedKeys, ItemsOf;
      found := map[];
      ghost var items: seq<Item> := [];
      NoEvents(now);
      NothingSorted();
      NoKeys(unrecognisedKeys);
      for i := 0 to |events|
        invariant items == ItemsOf(events[..i], now)
        invariant found == Categorised(items)
        invariant unrecognisedKeys == Tally(old(unrecognisedKeys), UnclassifiedKeys(items))
        invariant seenUnknownKeys == old(seenUnknownKeys) + UndocumentedKeys(events[..i])
      {
        ghost var item := Item(events[i].key, AlertOf(events[i], now));
        OneMoreEvent(events, i, now);
        OneMoreItem(items, item, old(unrecognisedKeys));
        found := SortEvent(events[i], now, found);
        items := items + [item];
      }
      assert events[..|events|] == events;
    }

    /** Folding the client's tally of one legacy poll into the running one. */
    method MergeUnrecognised(ghost keys: seq<string>)
      requires client.unrecognisedKeys == Tally(map[], keys)
      modifies this`unrecognisedKeys
      ensures unrecognisedKeys == Tally(old(unrecognisedKeys), keys)
    {
      hide Tally;
      var counts := client.unrecognisedKeys;
      ghost var base := unrecognisedKeys;
      var left := counts.Keys;
      while left != {}
        invariant left <= counts.Keys
        invariant unrecognisedKeys.Keys == base.Keys + (counts.Keys - left)
        invariant forall k :: k in unrecognisedKeys ==>
                    unrecognisedKeys[k] == Get(base, k, 0) + if k in left then 0 else Get(counts, k, 0)
        decreases left
      {
        var key :| key in left;
        left := left - {key};
        unrecognisedKeys := unrecognisedKeys[key := Get(unrecognisedKeys, key, 0) + counts[key]];
      }
      TallyMerges(base, keys, unrecognisedKeys);
    }

    method FetchViaV2(k: Controller, now: int, ghost sent: nat)
      returns (found: Result<map<string, seq<Alert>>, Failure>, requests: nat, ghost oldest: Option<int>)
      requires Valid()
      modifies this`unrecognisedKeys, this`seenUnknownKeys
      ensures IsOldest(View().lanes, oldest)
      ensures Gathered(SourceView(), found, sent, requests) == ViaV2(old(SourceView()), oldest, k, now, sent)
    {
      hide Categorised, UnclassifiedKeys, Tally, ItemsOf, PagesFrom, IsOldest, UndocumentedKeys, View, Valid, LaneOf,
        UniFiClient.View;
      var mark := OldestWatermark();
      oldest := mark;
      var since: Option<int> := None;
      if mark.Some? {
        since := Some(Max(mark.value, now - LOOKBACK));
      }
      var fetch := client.FetchSystemLogAlarms(k.v2, since, now);
      match fetch {
        case FetchFailed(e, n) =>
          return Err(e), n, oldest;
        case Fetched(events, n, _) =>
          var sorted := SortEvents(events, now);
          return Ok(sorted), n, oldest;
      }
    }

    method FetchCategorised(k: Controller, now: int)
      returns (found: Result<map<string, seq<Alert>>, Failure>, legacyRequests: nat, v2Requests: nat,
               ghost oldest: Option<int>)
      requires Valid()
      modifies this`hasSystemLog, this`probeFailCount, this`probeBackoffUntil, this`unrecognisedKeys,
               this`seenUnknownKeys, client
      ensures IsOldest(View().lanes, oldest)
      ensures Gathered(SourceView(), found, legacyRequests, v2Requests)
           == Gather(old(SourceView()), client.base, site, oldest, k, now)
    {
      hide Categorised, UnclassifiedKeys, Tally, ItemsOf, PagesFrom, IsOldest, FetchAlarms, ViaV2, Probing.Consulted,
          Probing.SaysV2, ItemsOfAlarms;
      var v2 := ProbeHasSystemLog(k.probe);
      legacyRequests := 0;
      if !v2 && site !in client.legacyConfirmedUnavailable {
        var legacy: Result<map<string, seq<Alert>>, FetchError>;
        legacy, legacyRequests := client.CategoriseAlarms(site, k.legacy, now);
        match legacy {
          case Ok(result) =>
            ghost var fetched := FetchAlarms(old(client.View()), client.base, site, k.legacy).result.value;
            MergeUnrecognised(UnclassifiedKeys(ItemsOfAlarms(fetched, now)));
            var mark := OldestWatermark();
            return Ok(result), legacyRequests, 0, mark;
          case Err(Http(e)) =>
            var mark := OldestWatermark();
            return Err(e), legacyRequests, 0, mark;
          case Err(AlarmEndpointUnavailable) =>
        }
      }
      found, v2Requests, oldest := FetchViaV2(k, now, legacyRequests);
    }

    /** A whole poll with nothing landing in between: fetch, then apply; a failed fetch leaves every
        category as it was. */
    method UpdateData(k: Controller, at: Clock) returns (error: Option<Failure>, ghost oldest: Option<int>)
      requires Valid()
      modifies this, client, states.Values
      ensures Valid() && IsOldest(old(View().lanes), oldest)
      ensures var g := Gather(old(SourceView()), client.base, site, oldest, k, at.wall);
              && SourceView() == g.source
              && (g.found.Ok? ==> error.None? && View() == Step(cfg, old(View()), Event(at, Poll(g.found.value))))
              && (g.found.Err? ==> error == Some(g.found.error) && View() == old(View()))
    {
      hide Gather, Step, IsOldest, Valid, View;
      var found: Result<map<string, seq<Alert>>, Failure>;
      var legacyRequests, v2Requests;
      found, legacyRequests, v2Requests, oldest := FetchCategorised(k, at.wall);
      if found.Err? {
        return Some(found.error), oldest;
      }
      ApplyPoll(found.value, at);
      error := None;
    }

    // ---- clears, up to the awaited persist ----

    method ClearState(category: string, wall: int)
      requires Valid() && category in states
      modifies this`timers, this`clearTasks, states[category]
      ensures Valid()
      ensures forall c :: c in states ==>
                LaneOf(c) == if c == category then Cleared(old(LaneOf(c)), wall) else old(LaneOf(c))
    {
      hide Unscheduled;
      CancelClear(category);
      states[category].Clear(wall);
    }

    method ClearCategory(k: Persistence.Codec, category: string, at: Clock) returns (saving: Option<map<string, Json>>)
      requires Valid()
      modifies this`timers, this`clearTasks, this`lastPushAt, states.Values
      ensures Valid() && View() == Step(cfg, old(View()), Event(at, ClearOne(category)))
      ensures saving == if category in states then Some(Persistence.Build(k, Persistence.Cats(View()))) else None
    {
      hide Cleared, Step, Persistence.Build, Persistence.Cats, Unshared;
      saving := None;
      if category in states {
        ClearState(category, at.wall);
      }
      OneLaneStep(cfg, old(View()), Event(at, ClearOne(category)), category, View());
      if category in states {
        var data := BuildPersistData(k);
        saving := Some(data);
      }
    }

    method ClearEach(wall: int)
      requires Valid()
      modifies this`timers, this`clearTasks, states.Values
      ensures Valid()
      ensures forall c :: c in states ==>
                LaneOf(c) == if old(LaneOf(c)).cat.enabled then Cleared(old(LaneOf(c)), wall) else old(LaneOf(c))
    {
      hide Cleared;
      var left := states.Keys;
      while left != {}
        invariant Valid() && left <= states.Keys
        invariant forall c :: c in states ==>
                    LaneOf(c) == if c !in left && old(LaneOf(c)).cat.enabled then Cleared(old(LaneOf(c)), wall)
                                 else old(LaneOf(c))
        decreases left
      {
        var category :| category in left;
        left := left - {category};
        if states[category].enabled {
          ClearState(category, wall);
        }
      }
    }

    method ClearAllStates(at: Clock)
      requires Valid()
      modifies this`timers, this`clearTasks, states.Values
      ensures Valid() && View() == Step(cfg, old(View()), Event(at, ClearAll))
    {
      hide Step, Cleared, Unshared;
      ClearEach(at.wall);
      ClearedEveryLane(cfg, old(View()), at, View());
    }

    method ClearEvery(k: Persistence.Codec, at: Clock) returns (saving: map<string, Json>)
      requires Valid()
      modifies this`timers, this`clearTasks, states.Values
      ensures Valid() && View() == Step(cfg, old(View()), Event(at, ClearAll))
      ensures saving == Persistence.Build(k, Persistence.Cats(View()))
    {
      hide Step, Persistence.Build, Persistence.Cats, Valid, View;
      ClearAllStates(at);
      saving := BuildPersistData(k);
    }

    // ---- snapshot and restore ----

    method BuildPersistData(k: Persistence.Codec) returns (data: map<string, Json>)
      requires Valid()
      ensures data == Persistence.Build(k, Persistence.Cats(View()))
    {
      hide Persistence.BuildEntry, Persistence.Cats;
      ghost var cats := map c | c in states :: states[c].View();
      CatsAreViews(cats);
      data := map[];
      var left := states.Keys;
      while left != {}
        invariant left <= states.Keys && data.Keys == states.Keys - left
        invariant forall c :: c in data ==> data[c] == Persistence.BuildEntry(k, cats[c])
        decreases left
      {
        var c :| c in left;
        left := left - {c};
        data := data[c := Persistence.BuildEntry(k, states[c].View())];
      }
    }

    method RestoreEach(k: Persistence.Codec, data: map<string, Json>, now: int) returns (bad: Option<string>)
      modifies states.Values
      requires Valid()
      ensures bad.None? ==>
                forall c :: c in states ==>
                  Persistence.RestoredOr(k, old(states[c].View()), data, c, now) == Ok(states[c].View())
      ensures bad.Some? ==>
                && bad.value in states
                && Persistence.RestoredOr(k, old(states[bad.value].View()), data, bad.value, now).Err?
    {
      hide Persistence.RestoreEntry;
      var left := data.Keys;
      while left != {}
        invariant left <= data.Keys
        invariant forall c :: c in states ==>
                    if c in data && c !in left
                    then Persistence.RestoreEntry(k, old(states[c].View()), data[c], now) == Ok(states[c].View())
                    else states[c].View() == old(states[c].View())
        decreases left
      {
        var category :| category in left;
        left := left - {category};
        if category in states {
          var ok := RestoreState(k, states[category], data[category], now);
          if !ok {
            return Some(category);
          }
        }
      }
      return None;
    }

    /** ok is false when an entry's count or last_alert makes restoring raise. */
    method RestoreWatermarks(k: Persistence.Codec, data: map<string, Json>, now: int) returns (ok: bool)
      requires Valid()
      modifies states.Values
      ensures Valid() && unchanged(this)
      ensures ok == Persistence.Restore(k, Persistence.Cats(old(View())), data, now).Some?
      ensures ok ==> Persistence.Cats(View()) == Persistence.Restore(k, Persistence.Cats(old(View())), data, now).value
    {
      hide Persistence.RestoredOr, Persistence.Restore;
      ghost var cats := map c | c in states :: states[c].View();
      CatsAreViews(cats);
      hide Persistence.Cats;
      var bad := RestoreEach(k, data, now);
      ok := bad.None?;
      if ok {
        ghost var restored := map c | c in states :: states[c].View();
        Persistence.RestoreEach(k, cats, data, now, restored);
        CatsAreViews(restored);
      } else {
        Persistence.OneBadEntry(k, cats, data, now, bad.value);
      }
    }

    lemma CatsAreViews(cats: map<string, Cat>)
      requires Valid() && cats.Keys == states.Keys && forall c :: c in states ==> cats[c] == states[c].View()
      ensures Persistence.Cats(View()) == cats
    {
    }

    method RestoreState(k: Persistence.Codec, state: CategoryState, entry: Json, now: int) returns (ok: bool)
      modifies state
      ensures ok ==> Persistence.RestoreEntry(k, old(state.View()), entry, now) == Ok(state.View())
      ensures !ok ==> Persistence.RestoreEntry(k, old(state.View()), entry, now).Err?
    {
      ok := true;
      match entry {
        case JStr(s) =>
          var t := k.fromIso(s);
          if t.Some? {
            state.lastClearedAt := t;
          }
        case JObj(o) =>
          var t := Persistence.ReadTime(k, Persistence.Field(o, "last_cleared_at", JNull));
          if t.Some? {
            state.lastClearedAt := t;
          }
          var count := k.toInt(Persistence.Field(o, "alert_count", JInt(0)));
          if count.None? {
            return false;
          }
          state.alertCount := count.value;
          var last := Persistence.Field(o, "last_alert", JNull);
          if !last.JNull? {
            if !last.JObj? {
              return false;
            }
            state.lastAlert := Some(Persistence.AlertFromDict(k, last.fields, now));
          }
          t := Persistence.ReadTime(k, Persistence.Field(o, "last_webhook_at", JNull));
          if t.Some? {
            state.lastWebhookAt := t;
          }
        case _ =>
      }
    }
  }
}
