/** Polled alarms with and without a timestamp. One with a timestamp carries it in every poll; one
    without is stamped by the host clock each time it is polled, so the same alarm becomes another
    alert every time. Acknowledgement is stated here on the alarms themselves. */
module Timestamps {
  import opened Wrappers
  import opened Models
  import opened Machine
  import opened Acknowledgement
  import Client
  import ClockSkew
  import Persistence
  import SystemLog

  /** The alert of an alarm at each host time it is polled: stamped by its own timestamp, if it has one. */
  ghost predicate StampedBy(alertAt: int -> Alert, timestamp: Option<int>) {
    forall t: int :: alertAt(t).receivedAt == if timestamp.Some? then timestamp.value else t
  }

  function RecordAt(r: SystemLog.Record): int -> Alert {
    (t: int) => SystemLog.AlertOf(r, t)
  }

  function AlarmAt(c: string, r: Client.Alarm): int -> Alert {
    (t: int) => Client.AlertOfAlarm(c, r, t)
  }

  lemma RecordIsStamped(r: SystemLog.Record)
    ensures StampedBy(RecordAt(r), r.timestamp)
  {
    hide SystemLog.MessageOf, SystemLog.CategoryOf;
  }

  lemma AlarmIsStamped(c: string, r: Client.Alarm)
    ensures StampedBy(AlarmAt(c, r), r.at)
  {
  }

  // ---- what a clear acknowledges, alarm by alarm ----

  /** A watermark that has reached an alarm once observed keeps it acknowledged, at whatever time it is
      polled again, exactly when the alarm has a timestamp. */
  lemma BehindForGood(alertAt: int -> Alert, timestamp: Option<int>, mark: int, t0: int)
    requires StampedBy(alertAt, timestamp) && alertAt(t0).receivedAt <= mark
    ensures timestamp.Some? <==> forall t1 :: !NewerThan(Some(mark), alertAt(t1))
  {
    assert timestamp.None? ==> NewerThan(Some(mark), alertAt(mark + 1));
  }

  /** After a clear, an alarm observed before it stays acknowledged through whatever follows, and at
      whatever time it is polled again, exactly when it has a timestamp. */
  lemma AcknowledgedExactlyWithATimestamp(cfg: Config, s: Core, pre: seq<Event>, clear: Event, c: string,
                                          alertAt: int -> Alert, timestamp: Option<int>, t0: int)
    requires IsStart(s) && c in s.lanes && ClearsSomethingSeen(cfg, s, pre, clear, c)
    requires StampedBy(alertAt, timestamp)
    ensures alertAt(t0) in Seen(cfg, s, pre, c) ==>
              (timestamp.Some? <==>
                forall post, t1 :: !NewerThan(Run(cfg, s, pre + [clear] + post).lanes[c].cat.clearedAt, alertAt(t1)))
  {
    hide Run, Seen, Clears, ClearsSomethingSeen;
    if alertAt(t0) in Seen(cfg, s, pre, c) {
      forall post ensures AckedTo(Run(cfg, s, pre + [clear] + post).lanes[c].cat, alertAt(t0).receivedAt) {
        WatermarkOnlyAdvances(cfg, s, pre, clear, post, c);
      }
      assert pre + [clear] + [] == pre + [clear];
      var mark := Run(cfg, s, pre + [clear] + []).lanes[c].cat.clearedAt;
      BehindForGood(alertAt, timestamp, mark.value, t0);
      if timestamp.None? {
        var t1 :| NewerThan(Some(mark.value), alertAt(t1));
        assert NewerThan(Run(cfg, s, pre + [clear] + []).lanes[c].cat.clearedAt, alertAt(t1));
      }
    }
  }

  /** For events of the v2 log. */
  lemma RecordAcknowledgedExactly(cfg: Config, s: Core, pre: seq<Event>, clear: Event, c: string,
                                  r: SystemLog.Record, t0: int)
    requires IsStart(s) && c in s.lanes && ClearsSomethingSeen(cfg, s, pre, clear, c)
    ensures SystemLog.AlertOf(r, t0) in Seen(cfg, s, pre, c) ==>
              (r.timestamp.Some? <==>
                forall post, t1 ::
                  !NewerThan(Run(cfg, s, pre + [clear] + post).lanes[c].cat.clearedAt, SystemLog.AlertOf(r, t1)))
  {
    hide Run, Seen, ClearsSomethingSeen, SystemLog.AlertOf;
    RecordIsStamped(r);
    var alertAt := RecordAt(r);
    assert forall t :: alertAt(t) == SystemLog.AlertOf(r, t);
    AcknowledgedExactlyWithATimestamp(cfg, s, pre, clear, c, alertAt, r.timestamp, t0);
  }

  /** For legacy alarms. */
  lemma AlarmAcknowledgedExactly(cfg: Config, s: Core, pre: seq<Event>, clear: Event, c: string,
                                 r: Client.Alarm, t0: int)
    requires IsStart(s) && c in s.lanes && ClearsSomethingSeen(cfg, s, pre, clear, c)
    ensures Client.AlertOfAlarm(c, r, t0) in Seen(cfg, s, pre, c) ==>
              (r.at.Some? <==>
                forall post, t1 ::
                  !NewerThan(Run(cfg, s, pre + [clear] + post).lanes[c].cat.clearedAt, Client.AlertOfAlarm(c, r, t1)))
  {
    hide Run, Seen, ClearsSomethingSeen, Client.AlertOfAlarm;
    AlarmIsStamped(c, r);
    var alertAt := AlarmAt(c, r);
    assert forall t :: alertAt(t) == Client.AlertOfAlarm(c, r, t);
    AcknowledgedExactlyWithATimestamp(cfg, s, pre, clear, c, alertAt, r.at, t0);
  }

  /** The same across a restart: in the new instance too, over every run that only polls alarms with
      the stamps of ones observed before the clear. */
  lemma SurvivesRestartExactlyWithATimestamp(
      k: Persistence.Codec, cfg: Config, s: Core, pre: seq<Event>, clear: Event, post: seq<Event>, c: string,
      next: Config, enabled: map<string, bool>, now: int, alertAt: int -> Alert, timestamp: Option<int>, t0: int)
    requires Persistence.Faithful(k) && IsStart(s) && c in s.lanes && enabled.Keys == s.lanes.Keys
    requires forall d :: d in s.lanes ==> Persistence.ClippedCat(s.lanes[d].cat)
    requires Persistence.ClippedEvents(pre + [clear] + post) && ClearsSomethingSeen(cfg, s, pre, clear, c)
    requires StampedBy(alertAt, timestamp)
    ensures var disk := Persistence.Build(k, Persistence.Cats(Run(cfg, s, pre + [clear] + post)));
            var restored := Persistence.Restore(k, Persistence.FreshCats(enabled), disk, now);
            && restored.Some? && restored.value.Keys == s.lanes.Keys
            && var again := Persistence.Started(restored.value);
               alertAt(t0) in Seen(cfg, s, pre, c) ==>
                 (timestamp.Some? <==>
                   forall es, t1 :: Persistence.Replays(next, again, es, c, Seen(cfg, s, pre, c)) ==>
                     !NewerThan(Run(next, again, es).lanes[c].cat.clearedAt, alertAt(t1)))
  {
    hide Run, Seen, Clears, ClearsSomethingSeen, Persistence.Build, Persistence.Restore, Persistence.FreshCats,
      Persistence.ClippedCat, Persistence.ClippedEvents, Persistence.Faithful, Persistence.Started, Persistence.Replays,
      Persistence.Cats, IsStart;
    var final := Run(cfg, s, pre + [clear] + post);
    Persistence.AcknowledgementSurvivesRestart(k, cfg, s, pre, clear, post, c, next, enabled, now);
    WatermarkOnlyAdvances(cfg, s, pre, clear, post, c);
    var restored := Persistence.Restore(k, Persistence.FreshCats(enabled),
                                        Persistence.Build(k, Persistence.Cats(final)), now);
    var again, mark := Persistence.Started(restored.value), final.lanes[c].cat.clearedAt.value;
    if alertAt(t0) in Seen(cfg, s, pre, c) {
      BehindForGood(alertAt, timestamp, mark, t0);
      if timestamp.None? {
        NothingReplays(next, again, c, Seen(cfg, s, pre, c));
        var t1 :| NewerThan(Some(mark), alertAt(t1));
        assert NewerThan(Run(next, again, []).lanes[c].cat.clearedAt, alertAt(t1));
      }
    }
  }

  lemma NothingReplays(cfg: Config, s: Core, c: string, seen: seq<Alert>)
    requires c in s.lanes
    ensures Persistence.Replays(cfg, s, [], c, seen)
  {
  }

  // ---- the alarm that always comes back ----

  /** Rounds of polling one alarm of c and clearing it, at these host times. */
  function Rounds(c: string, alertAt: int -> Alert, walls: seq<int>): seq<Event> {
    if walls == [] then []
    else Rounds(c, alertAt, walls[..|walls| - 1]) + Round(c, alertAt, walls[|walls| - 1])
  }

  function Round(c: string, alertAt: int -> Alert, wall: int): seq<Event> {
    [PollOf(c, alertAt, wall), Event(Clock(0, wall), ClearOne(c))]
  }

  function PollOf(c: string, alertAt: int -> Alert, wall: int): Event {
    Event(Clock(0, wall), Poll(map[c := [alertAt(wall)]]))
  }

  /** Quiet, with watermark and newest sighting at the last round. */
  predicate ClearedAtLast(cat: Cat, walls: seq<int>) {
    var last := if walls == [] then None else Some(walls[|walls| - 1]);
    !cat.alerting && cat.clearedAt == last && cat.newestSeen == last
  }

  lemma OnePollOf(cfg: Config, s: Core, c: string, alertAt: int -> Alert, wall: int)
    requires c in s.lanes && s.lanes[c].cat.enabled && StampedBy(alertAt, None) && Passes(cfg, c, alertAt(wall))
    requires s.lanes[c].cat.clearedAt == s.lanes[c].cat.newestSeen
    requires s.lanes[c].cat.clearedAt.Some? ==> s.lanes[c].cat.clearedAt.value < wall
    ensures var cat := Step(cfg, s, PollOf(c, alertAt, wall)).lanes[c].cat;
            cat.openCount == 1 && cat.alerting && cat.newestSeen == Some(wall)
  {
    hide Passes, Scheduled;
    var a := alertAt(wall);
    assert [a][..0] == [];
    assert Eligible(cfg, c, [a]) == [a];
    assert Unacknowledged(s.lanes[c].cat.clearedAt, [a]) == [a];
    NewestSeenStep(cfg, s, PollOf(c, alertAt, wall), c);
  }

  lemma OneRound(cfg: Config, s: Core, c: string, alertAt: int -> Alert, wall: int)
    requires c in s.lanes && s.lanes[c].cat.enabled && StampedBy(alertAt, None) && Passes(cfg, c, alertAt(wall))
    requires s.lanes[c].cat.clearedAt == s.lanes[c].cat.newestSeen
    requires s.lanes[c].cat.clearedAt.Some? ==> s.lanes[c].cat.clearedAt.value < wall
    ensures var cat := Run(cfg, s, Round(c, alertAt, wall)).lanes[c].cat;
            !cat.alerting && cat.clearedAt == Some(wall) && cat.newestSeen == Some(wall)
  {
    hide Step, Passes, StampedBy, PollOf;
    var polling, clear := PollOf(c, alertAt, wall), Event(Clock(0, wall), ClearOne(c));
    assert [polling, clear][..1] == [polling] && [polling][..0] == [];
    var mid := Step(cfg, s, polling);
    assert Run(cfg, s, [polling]) == mid;
    OnePollOf(cfg, s, c, alertAt, wall);
    AckStep(cfg, mid, clear, c);
    NewestSeenStep(cfg, mid, clear, c);
  }

  predicate Increasing(walls: seq<int>) {
    forall i, j :: 0 <= i < j < |walls| ==> walls[i] < walls[j]
  }

  lemma {:induction false} ClearedAfterRounds(cfg: Config, s: Core, c: string, alertAt: int -> Alert, walls: seq<int>)
    requires IsFresh(s) && c in s.lanes && s.lanes[c].cat.enabled && StampedBy(alertAt, None)
    requires (forall t :: Passes(cfg, c, alertAt(t))) && Increasing(walls)
    ensures ClearedAtLast(Run(cfg, s, Rounds(c, alertAt, walls)).lanes[c].cat, walls)
  {
    hide Run, Passes, StampedBy, Round;
    if walls == [] {
      NoSteps(cfg, s);
    } else {
      var pre, wall := walls[..|walls| - 1], walls[|walls| - 1];
      ClearedAfterRounds(cfg, s, c, alertAt, pre);
      RunConcat(cfg, s, Rounds(c, alertAt, pre), Round(c, alertAt, wall));
      OneRound(cfg, Run(cfg, s, Rounds(c, alertAt, pre)), c, alertAt, wall);
    }
  }


  /** The failing run: an alarm without a timestamp is counted and alerts again in every poll, however
      often it has been polled and cleared before. */
  lemma UnstampedAlarmAlwaysComesBack(cfg: Config, s: Core, c: string, alertAt: int -> Alert, walls: seq<int>,
                                      wall: int)
    requires IsFresh(s) && c in s.lanes && s.lanes[c].cat.enabled && StampedBy(alertAt, None)
    requires (forall t :: Passes(cfg, c, alertAt(t))) && Increasing(walls)
    requires walls != [] ==> walls[|walls| - 1] < wall
    ensures var cat := Run(cfg, s, Rounds(c, alertAt, walls) + [PollOf(c, alertAt, wall)]).lanes[c].cat;
            cat.openCount == 1 && cat.alerting
  {
    hide Step, Passes, StampedBy, PollOf;
    ClearedAfterRounds(cfg, s, c, alertAt, walls);
    var before := Rounds(c, alertAt, walls);
    assert (before + [PollOf(c, alertAt, wall)])[..|before|] == before;
    OnePollOf(cfg, Run(cfg, s, before), c, alertAt, wall);
  }

  /** Such an alarm exists for every category and setting: one without severity or timestamp. */
  lemma UnstampedAlarmExists(cfg: Config, c: string, r: Client.Alarm)
    requires r.at.None? && r.severity == "" && r.subsystem == ""
    ensures StampedBy(AlarmAt(c, r), None) && forall t :: Passes(cfg, c, AlarmAt(c, r)(t))
  {
    AlarmIsStamped(c, r);
  }

  // ---- readings ----

  function SkewedTime(timestamp: Option<int>, d: int): Option<int> {
    if timestamp.Some? then Some(timestamp.value + d) else None
  }

  /** A record polled from a controller d ahead is the reading of it there. */
  lemma RecordIsReading(r: SystemLog.Record, wall: int, d: int)
    ensures SystemLog.AlertOf(r.(timestamp := SkewedTime(r.timestamp, d)), wall)
         == ClockSkew.ReadAt(ClockSkew.Reading(SystemLog.AlertOf(r, 0), r.timestamp.Some?), wall, d, 0)
  {
    hide Persistence.Clip;
  }

  lemma AlarmIsReading(c: string, r: Client.Alarm, wall: int, d: int)
    ensures Client.AlertOfAlarm(c, r.(at := SkewedTime(r.at, d)), wall)
         == ClockSkew.ReadAt(ClockSkew.Reading(Client.AlertOfAlarm(c, r, 0), r.at.Some?), wall, d, 0)
  {
    hide Persistence.Clip;
  }
}
