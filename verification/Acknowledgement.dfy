/** The acknowledgement watermark over whole runs. */
module Acknowledgement {
  import opened Wrappers
  import opened Models
  import opened Machine

  /** The alarms of c this event observes: an accepted push, or the eligible polled ones. */
  function Sighted(cfg: Config, s: Core, e: Event, c: string): seq<Alert>
    requires c in s.lanes
  {
    match e.action
    case Push(_, a) => if Accepts(cfg, s, e, c) then [a] else []
    case Poll(found) => if s.lanes[c].cat.enabled && c in found then Eligible(cfg, c, found[c]) else []
    case _ => []
  }

  function Seen(cfg: Config, s: Core, es: seq<Event>, c: string): seq<Alert>
    requires c in s.lanes
  {
    if es == [] then []
    else Seen(cfg, s, es[..|es| - 1], c) + Sighted(cfg, Run(cfg, s, es[..|es| - 1]), es[|es| - 1], c)
  }

  /** m is the newest received_at among these alarms, None when there are none. */
  ghost predicate IsNewest(m: Option<int>, alerts: seq<Alert>) {
    && (m.None? <==> alerts == [])
    && (m.Some? ==> exists a :: a in alerts && a.receivedAt == m.value)
    && (m.Some? ==> forall a :: a in alerts ==> a.receivedAt <= m.value)
  }

  lemma NewestOfBoth(m: Option<int>, xs: seq<Alert>, ys: seq<Alert>)
    requires IsNewest(m, xs)
    ensures IsNewest(NewestSeen(m, ys), xs + ys)
  {
    if ys != [] {
      assert MostRecent(ys) in xs + ys;
      if m.Some? {
        var a :| a in xs && a.receivedAt == m.value;
        assert a in xs + ys;
      }
    }
  }

  lemma NewestSeenStep(cfg: Config, s: Core, e: Event, c: string)
    requires c in s.lanes
    ensures Step(cfg, s, e).lanes[c].cat.newestSeen == NewestSeen(s.lanes[c].cat.newestSeen, Sighted(cfg, s, e, c))
  {
    hide Judge, Eligible, Unacknowledged;
  }

  /** last_alarm_received_at is always the maximum over the accepted pushes and eligible polled
      alarms of this instance. */
  lemma {:induction false} NewestSeenIsMaximum(cfg: Config, s: Core, es: seq<Event>, c: string)
    requires IsStart(s) && c in s.lanes
    ensures IsNewest(Run(cfg, s, es).lanes[c].cat.newestSeen, Seen(cfg, s, es, c))
  {
    hide Step, Sighted;
    if es != [] {
      var pre, e := es[..|es| - 1], es[|es| - 1];
      NewestSeenIsMaximum(cfg, s, pre, c);
      NewestSeenStep(cfg, Run(cfg, s, pre), e, c);
      NewestOfBoth(Run(cfg, s, pre).lanes[c].cat.newestSeen, Seen(cfg, s, pre, c),
                   Sighted(cfg, Run(cfg, s, pre), e, c));
    }
  }

  /** An alerting category has always observed something, so auto-clear never needs the host clock. */
  lemma {:induction false} AlertingHasSeen(cfg: Config, s: Core, es: seq<Event>, c: string)
    requires IsStart(s) && c in s.lanes
    ensures Run(cfg, s, es).lanes[c].cat.alerting ==> Run(cfg, s, es).lanes[c].cat.newestSeen.Some?
  {
    if es != [] {
      AlertingHasSeen(cfg, s, es[..|es| - 1], c);
      AlertingSeenStep(cfg, Run(cfg, s, es[..|es| - 1]), es[|es| - 1], c);
    }
  }

  lemma AlertingSeenStep(cfg: Config, s: Core, e: Event, c: string)
    requires c in s.lanes && (s.lanes[c].cat.alerting ==> s.lanes[c].cat.newestSeen.Some?)
    ensures Step(cfg, s, e).lanes[c].cat.alerting ==> Step(cfg, s, e).lanes[c].cat.newestSeen.Some?
  {
    hide Judge;
  }

  /** This event acknowledges c: a clear button or service, or its auto-clear. */
  predicate Clears(s: Core, e: Event, c: string)
    requires c in s.lanes
  {
    match e.action
    case ClearOne(d) => d == c
    case ClearAll => s.lanes[c].cat.enabled
    case TimerDue(d, i) => d == c && Due(s.lanes[c].timers, i, e.at.mono) && s.lanes[c].cat.alerting
    case _ => false
  }

  /** Everything up to w is acknowledged, and any further clear will keep it so. */
  predicate AckedTo(cat: Cat, w: int) {
    cat.clearedAt.Some? && cat.newestSeen.Some? && w <= cat.clearedAt.value && w <= cat.newestSeen.value
  }

  /** Neither a push nor a poll moves a watermark, and both only advance the newest sighting. */
  predicate KeepsMark(c: Cat, next: Cat) {
    && next.clearedAt == c.clearedAt
    && (c.newestSeen.Some? ==> next.newestSeen.Some? && c.newestSeen.value <= next.newestSeen.value)
  }

  lemma PushKeepsMark(cfg: Config, lane: Lane, a: Alert, v: Verdict, mono: int)
    ensures KeepsMark(lane.cat, Pushed(cfg, lane, a, v, mono).cat)
  {
    hide Scheduled, ClearDelay;
  }

  lemma PollKeepsMark(cfg: Config, c: string, lane: Lane, found: map<string, seq<Alert>>, mono: int)
    ensures KeepsMark(lane.cat, Polled(cfg, c, lane, found, mono).cat)
  {
    hide Eligible, Unacknowledged, MostRecent, Scheduled, ClearDelay;
  }

  lemma AckStep(cfg: Config, s: Core, e: Event, c: string)
    requires c in s.lanes
    ensures var cat, next := s.lanes[c].cat, Step(cfg, s, e).lanes[c].cat;
            && next.clearedAt == (if !Clears(s, e, c) then cat.clearedAt
                                  else if cat.newestSeen.Some? then cat.newestSeen else Some(e.at.wall))
            && (cat.newestSeen.Some? ==> next.newestSeen.Some? && cat.newestSeen.value <= next.newestSeen.value)
            && (Clears(s, e, c) ==> !next.alerting)
  {
    hide Pushed, Polled, Unscheduled, WithStatus, VerdictOf;
    match e.action
    case Push(_, a) => PushKeepsMark(cfg, s.lanes[c], a, VerdictOf(cfg, s, e), e.at.mono);
    case Poll(found) => PollKeepsMark(cfg, c, s.lanes[c], found, e.at.mono);
    case _ =>
  }

  lemma {:induction false} AckLasts(cfg: Config, s: Core, es: seq<Event>, c: string, w: int)
    requires c in s.lanes && AckedTo(s.lanes[c].cat, w)
    ensures AckedTo(Run(cfg, s, es).lanes[c].cat, w)
  {
    hide Step;
    if es != [] {
      AckLasts(cfg, s, es[..|es| - 1], c, w);
      AckStep(cfg, Run(cfg, s, es[..|es| - 1]), es[|es| - 1], c);
    }
  }

  /** A clear can move the watermark back: one that finds nothing seen by this instance stamps the
      host clock, and one that finds only older alarms (after a restart) stamps the newest of them. */
  lemma ClearMovesBack(cfg: Config, s: Core, c: string, w: int, mono: int)
    requires c in s.lanes && (s.lanes[c].cat.newestSeen.Some? ==> s.lanes[c].cat.newestSeen.value < w)
    ensures var clear := Event(Clock(mono, w - 1), ClearOne(c));
            var mark := Run(cfg, s, [clear]).lanes[c].cat.clearedAt; mark.Some? && mark.value < w
  {
    hide Step;
    var clear := Event(Clock(mono, w - 1), ClearOne(c));
    AckStep(cfg, s, clear, c);
    assert [clear][..0] == [];
  }

  /** Exactly when a watermark is held for good: whatever follows, c stays acknowledged up to w, if
      and only if both its watermark and its newest sighting have reached w. */
  lemma AckedToIsForever(cfg: Config, s: Core, c: string, w: int)
    requires c in s.lanes
    ensures AckedTo(s.lanes[c].cat, w) <==>
            forall es :: var mark := Run(cfg, s, es).lanes[c].cat.clearedAt; mark.Some? && w <= mark.value
  {
    hide Run;
    var cat := s.lanes[c].cat;
    if AckedTo(cat, w) {
      forall es ensures AckedTo(Run(cfg, s, es).lanes[c].cat, w) {
        AckLasts(cfg, s, es, c, w);
      }
    } else if cat.clearedAt.None? || cat.clearedAt.value < w {
      NoSteps(cfg, s);
      assert Run(cfg, s, []).lanes[c].cat.clearedAt == cat.clearedAt;
    } else {
      ClearMovesBack(cfg, s, c, w, 0);
      assert Run(cfg, s, [Event(Clock(0, w - 1), ClearOne(c))]).lanes[c].cat.clearedAt.value < w;
    }
  }

  lemma NoSteps(cfg: Config, s: Core)
    ensures Run(cfg, s, []) == s
  {
  }

  lemma {:induction false} RunConcat(cfg: Config, s: Core, a: seq<Event>, b: seq<Event>)
    ensures Run(cfg, s, a + b) == Run(cfg, Run(cfg, s, a), b)
  {
    hide Step;
    if b == [] {
      assert a + b == a;
    } else {
      RunConcat(cfg, s, a, b[..|b| - 1]);
      assert (a + b)[..|a + b| - 1] == a + b[..|b| - 1];
    }
  }

  /** After this run the event acknowledges c, and something of c has been observed. */
  predicate ClearsSomethingSeen(cfg: Config, s: Core, pre: seq<Event>, clear: Event, c: string)
    requires c in s.lanes
  {
    Seen(cfg, s, pre, c) != [] && Clears(Run(cfg, s, pre), clear, c)
  }

  /** Later clears only move the watermark forward, once it was set from something observed. */
  lemma WatermarkOnlyAdvances(cfg: Config, s: Core, pre: seq<Event>, clear: Event, post: seq<Event>, c: string)
    requires IsStart(s) && c in s.lanes && ClearsSomethingSeen(cfg, s, pre, clear, c)
    ensures var marked := Run(cfg, s, pre + [clear]).lanes[c].cat;
            && marked.clearedAt.Some?
            && IsNewest(marked.clearedAt, Seen(cfg, s, pre, c))
            && AckedTo(Run(cfg, s, pre + [clear] + post).lanes[c].cat, marked.clearedAt.value)
  {
    hide Step, Seen;
    NewestSeenIsMaximum(cfg, s, pre, c);
    AckStep(cfg, Run(cfg, s, pre), clear, c);
    assert (pre + [clear])[..|pre|] == pre;
    RunConcat(cfg, s, pre + [clear], post);
    AckLasts(cfg, Run(cfg, s, pre + [clear]), post, c, Run(cfg, s, pre + [clear]).lanes[c].cat.clearedAt.value);
  }

  /** What one poll does to a category with a watermark. */
  lemma PollAgainstWatermark(cfg: Config, s: Core, at: Clock, found: map<string, seq<Alert>>, c: string)
    requires c in s.lanes && s.lanes[c].cat.enabled && s.lanes[c].cat.clearedAt.Some?
    ensures var cat, next := s.lanes[c].cat, Step(cfg, s, Event(at, Poll(found))).lanes[c].cat;
            var counted := if c in found then Unacknowledged(cat.clearedAt, Eligible(cfg, c, found[c])) else [];
            && next.openCount == |counted|
            && next.alerting == (cat.alerting || counted != [])
            && (!cat.alerting && next.alerting ==> next.lastAlert.Some? && next.lastAlert.value in counted)
  {
    hide Eligible, Unacknowledged;
  }

  /** Acknowledgement is exact and lasting: after a clear made with something observed, every later
      poll counts exactly the eligible alerts newer than the watermark, never one stamped no later
      than what was observed before the clear, and re-alerts only on an alert it counts. (Which
      alarms give the same alert in every poll is in Timestamps.) */
  lemma AcknowledgedStaysAcknowledged(cfg: Config, s: Core, pre: seq<Event>, clear: Event, post: seq<Event>,
                                      at: Clock, found: map<string, seq<Alert>>, c: string)
    requires IsStart(s) && c in s.lanes && s.lanes[c].cat.enabled
    requires ClearsSomethingSeen(cfg, s, pre, clear, c)
    ensures var before := Run(cfg, s, pre + [clear] + post);
            var cat, next := before.lanes[c].cat, Step(cfg, before, Event(at, Poll(found))).lanes[c].cat;
            var counted := if c in found then Unacknowledged(cat.clearedAt, Eligible(cfg, c, found[c])) else [];
            && next.openCount == |counted|
            && (forall a: Alert, b: Alert ::
                  a in Seen(cfg, s, pre, c) && b.receivedAt <= a.receivedAt ==> b !in counted)
            && (forall a :: a in counted <==> c in found && a in found[c] && Passes(cfg, c, a)
                                              && cat.clearedAt.Some? && a.receivedAt > cat.clearedAt.value)
            && (!cat.alerting && next.alerting ==> next.lastAlert.Some? && next.lastAlert.value in counted)
  {
    hide Step, Seen, Passes, Run, Clears;
    WatermarkOnlyAdvances(cfg, s, pre, clear, post, c);
    var before := Run(cfg, s, pre + [clear] + post);
    PollAgainstWatermark(cfg, before, at, found, c);
  }

  // ---- a clear, then a poll ----

  function ClearedThenPolled(cfg: Config, s: Core, c: string, cleared: Clock, at: Clock,
                             found: map<string, seq<Alert>>): Cat
    requires c in s.lanes
  {
    Step(cfg, Step(cfg, s, Event(cleared, ClearOne(c))), Event(at, Poll(found))).lanes[c].cat
  }

  /** The watermark a clear at this host time leaves. */
  function MarkOf(cat: Cat, wall: int): int {
    if cat.newestSeen.Some? then cat.newestSeen.value else wall
  }

  lemma ClearedThenPolledCounts(cfg: Config, s: Core, c: string, cleared: Clock, at: Clock,
                                found: map<string, seq<Alert>>)
    requires c in s.lanes && s.lanes[c].cat.enabled
    ensures var mark := MarkOf(s.lanes[c].cat, cleared.wall);
            var counted := if c in found then Unacknowledged(Some(mark), Eligible(cfg, c, found[c])) else [];
            var cat := ClearedThenPolled(cfg, s, c, cleared, at, found);
            cat.openCount == |counted| && cat.alerting == (counted != [])
  {
    hide Step, Eligible, Unacknowledged;
    var clear := Event(cleared, ClearOne(c));
    AckStep(cfg, s, clear, c);
    PollAgainstWatermark(cfg, Step(cfg, s, clear), at, found, c);
  }

  /** An open alarm of unknown severity, which every minimum lets through. */
  function OpenAlarm(c: string, t: int): Alert {
    Alert(c, "", t, NO_RAW, "", "", "", "")
  }

  lemma OneAlarmCounts(cfg: Config, c: string, t: int, mark: int)
    ensures Unacknowledged(Some(mark), Eligible(cfg, c, [OpenAlarm(c, t)]))
         == if t > mark then [OpenAlarm(c, t)] else []
  {
    var a := OpenAlarm(c, t);
    assert Passes(cfg, c, a);
    assert [a][..0] == [];
    assert Eligible(cfg, c, [a]) == [a];
  }

  // ---- what an acknowledged category withstands ----

  /** Acknowledged up to w, with nothing counted and nothing alerting. */
  predicate Held(cat: Cat, w: int) {
    cat.clearedAt == Some(w) && !cat.alerting && cat.openCount == 0
  }

  /** This event applies a push of c, polls an eligible alarm of it newer than w, or clears it to
      another watermark. */
  predicate Disturbs(cfg: Config, s: Core, e: Event, c: string, w: int)
    requires c in s.lanes
  {
    match e.action
    case Push(_, _) => Accepts(cfg, s, e, c)
    case Poll(found) =>
      && s.lanes[c].cat.enabled && c in found
      && exists a :: a in found[c] && Passes(cfg, c, a) && a.receivedAt > w
    case _ => Clears(s, e, c) && MarkOf(s.lanes[c].cat, e.at.wall) != w
  }

  lemma {:induction false} NoneNewer(mark: Option<int>, xs: seq<Alert>)
    ensures Unacknowledged(mark, xs) == [] <==> forall a :: a in xs ==> !NewerThan(mark, a)
  {
    if xs != [] {
      NoneNewer(mark, xs[..|xs| - 1]);
    }
  }

  lemma PolledHeld(cfg: Config, c: string, lane: Lane, found: map<string, seq<Alert>>, mono: int, w: int)
    requires Held(lane.cat, w)
    ensures Held(Polled(cfg, c, lane, found, mono).cat, w) <==>
            !(lane.cat.enabled && c in found && exists a :: a in found[c] && Passes(cfg, c, a) && a.receivedAt > w)
  {
    if lane.cat.enabled && c in found {
      NoneNewer(Some(w), Eligible(cfg, c, found[c]));
    }
    hide Eligible, Unacknowledged, MostRecent, NewestSeen, Scheduled, Passes;
  }

  lemma HeldStep(cfg: Config, s: Core, e: Event, c: string, w: int)
    requires c in s.lanes && Held(s.lanes[c].cat, w)
    ensures Held(Step(cfg, s, e).lanes[c].cat, w) <==> !Disturbs(cfg, s, e, c, w)
  {
    hide Polled, Scheduled, Unscheduled, WithStatus, Judge, Passes;
    if e.action.Poll? {
      PolledHeld(cfg, c, s.lanes[c], e.action.found, e.at.mono, w);
    }
  }

  predicate Undisturbed(cfg: Config, s: Core, es: seq<Event>, c: string, w: int)
    requires c in s.lanes
  {
    es == [] || (Undisturbed(cfg, s, es[..|es| - 1], c, w)
                 && !Disturbs(cfg, Run(cfg, s, es[..|es| - 1]), es[|es| - 1], c, w))
  }

  predicate HeldThroughout(cfg: Config, s: Core, es: seq<Event>, c: string, w: int)
    requires c in s.lanes
  {
    Held(Run(cfg, s, es).lanes[c].cat, w) && (es == [] || HeldThroughout(cfg, s, es[..|es| - 1], c, w))
  }

  /** An acknowledged, quiet category stays so through a whole run, its watermark included, exactly
      when nothing in the run disturbs it. */
  lemma {:induction false} HeldExactlyWhileUndisturbed(cfg: Config, s: Core, es: seq<Event>, c: string, w: int)
    requires c in s.lanes && Held(s.lanes[c].cat, w)
    ensures HeldThroughout(cfg, s, es, c, w) <==> Undisturbed(cfg, s, es, c, w)
  {
    hide Step, Held, Disturbs;
    if es != [] {
      var pre := es[..|es| - 1];
      HeldExactlyWhileUndisturbed(cfg, s, pre, c, w);
      if Undisturbed(cfg, s, pre, c, w) {
        HeldStep(cfg, Run(cfg, s, pre), es[|es| - 1], c, w);
      }
    }
  }

  /** Exactly when a further clear keeps what was acknowledged: no later poll of alarms at or before
      w counts or alerts, if and only if the watermark it leaves has reached w. */
  lemma ClearKeepsAcknowledgedExactly(cfg: Config, s: Core, c: string, cleared: Clock, w: int)
    requires c in s.lanes && s.lanes[c].cat.enabled
    ensures w <= MarkOf(s.lanes[c].cat, cleared.wall) <==>
            forall at, found: map<string, seq<Alert>> ::
              (c in found ==> forall a :: a in found[c] ==> a.receivedAt <= w) ==>
                var cat := ClearedThenPolled(cfg, s, c, cleared, at, found); cat.openCount == 0 && !cat.alerting
  {
    hide ClearedThenPolled, Eligible, Unacknowledged, Passes;
    var mark := MarkOf(s.lanes[c].cat, cleared.wall);
    if w <= mark {
      forall at, found: map<string, seq<Alert>> | c in found ==> forall a :: a in found[c] ==> a.receivedAt <= w
        ensures var cat := ClearedThenPolled(cfg, s, c, cleared, at, found); cat.openCount == 0 && !cat.alerting
      {
        ClearedThenPolledCounts(cfg, s, c, cleared, at, found);
        if c in found {
          NoneNewer(Some(mark), Eligible(cfg, c, found[c]));
        }
      }
    } else {
      var found := map[c := [OpenAlarm(c, w)]];
      ClearedThenPolledCounts(cfg, s, c, cleared, cleared, found);
      OneAlarmCounts(cfg, c, w, mark);
      assert ClearedThenPolled(cfg, s, c, cleared, cleared, found).openCount == 1;
    }
  }

  // ---- counting without alerting ----

  /** The counter and the sensor agree: a category that counts something alerts. */
  predicate Agrees(cat: Cat) {
    cat.openCount > 0 ==> cat.alerting
  }

  /** A clear that leaves a count standing. */
  predicate ClearsCounted(s: Core, e: Event, c: string)
    requires c in s.lanes
  {
    Clears(s, e, c) && s.lanes[c].cat.openCount > 0
  }

  lemma PolledAgrees(cfg: Config, c: string, lane: Lane, found: map<string, seq<Alert>>, mono: int)
    requires lane.cat.enabled
    ensures Agrees(Polled(cfg, c, lane, found, mono).cat)
  {
    hide Eligible, Unacknowledged, MostRecent, NewestSeen, Scheduled, ClearDelay;
  }

  lemma PushedAgrees(cfg: Config, lane: Lane, a: Alert, v: Verdict, mono: int)
    ensures Agrees(Pushed(cfg, lane, a, v, mono).cat) <==> v.Accepted? || Agrees(lane.cat)
  {
    hide Scheduled, ClearDelay;
  }

  /** A poll or an accepted push makes the two agree, a clear leaves them agreeing exactly when there
      is nothing to count, and nothing else makes a difference. */
  lemma AgreementStep(cfg: Config, s: Core, e: Event, c: string)
    requires c in s.lanes && s.lanes[c].cat.enabled
    ensures Agrees(Step(cfg, s, e).lanes[c].cat) <==>
            e.action.Poll? || Accepts(cfg, s, e, c) || (!ClearsCounted(s, e, c) && Agrees(s.lanes[c].cat))
  {
    hide Pushed, Polled, Unscheduled, WithStatus, Judge;
    match e.action
    case Push(_, a) => PushedAgrees(cfg, s.lanes[c], a, VerdictOf(cfg, s, e), e.at.mono);
    case Poll(found) => PolledAgrees(cfg, c, s.lanes[c], found, e.at.mono);
    case _ =>
  }

  /** The last poll, accepted push or counted clear of c in this run was a counted clear. */
  predicate LeftCounted(cfg: Config, s: Core, es: seq<Event>, c: string)
    requires c in s.lanes
  {
    if es == [] then !Agrees(s.lanes[c].cat)
    else
      var pre, e := es[..|es| - 1], es[|es| - 1];
      var mid := Run(cfg, s, pre);
      !e.action.Poll? && !Accepts(cfg, mid, e, c) && (ClearsCounted(mid, e, c) || LeftCounted(cfg, s, pre, c))
  }

  /** Over any run a category counts without alerting exactly from a clear that found a count until
      the next poll or accepted push. */
  lemma {:induction false} CountsWithoutAlertingExactly(cfg: Config, s: Core, es: seq<Event>, c: string)
    requires c in s.lanes && s.lanes[c].cat.enabled
    ensures Agrees(Run(cfg, s, es).lanes[c].cat) <==> !LeftCounted(cfg, s, es, c)
  {
    hide Step, Agrees, Accepts, ClearsCounted;
    if es != [] {
      CountsWithoutAlertingExactly(cfg, s, es[..|es| - 1], c);
      AgreementStep(cfg, Run(cfg, s, es[..|es| - 1]), es[|es| - 1], c);
    }
  }

  lemma CountedPush(cfg: Config, s: Core, c: string, at: Clock, a: Alert)
    requires IsFresh(s) && c in s.lanes && s.lanes[c].cat.enabled && a.key == "" && a.severity == ""
    ensures Step(cfg, s, Event(at, Push(c, a))).lanes[c].cat.openCount == 1
  {
    assert Passes(cfg, c, a);
    hide Passes, Scheduled, ClearDelay;
  }

  lemma ClearKeepsCount(cfg: Config, s: Core, c: string, at: Clock)
    requires c in s.lanes
    ensures var cat := Step(cfg, s, Event(at, ClearOne(c))).lanes[c].cat;
            cat.openCount == s.lanes[c].cat.openCount && !cat.alerting
  {
    hide Unscheduled;
  }

  /** The disagreeing input: one push and one clear of a new coordinator. */
  lemma ClearedWithACount(cfg: Config, s: Core, c: string, at: Clock)
    requires IsFresh(s) && c in s.lanes && s.lanes[c].cat.enabled
    ensures var push, clear := Event(at, Push(c, OpenAlarm(c, at.wall))), Event(at, ClearOne(c));
            var cat := Run(cfg, s, [push, clear]).lanes[c].cat;
            cat.openCount == 1 && !cat.alerting
  {
    hide Step;
    var a := OpenAlarm(c, at.wall);
    var push, clear := Event(at, Push(c, a)), Event(at, ClearOne(c));
    assert [push, clear][..1] == [push] && [push][..0] == [];
    assert Run(cfg, s, [push]) == Step(cfg, s, push);
    CountedPush(cfg, s, c, at, a);
    ClearKeepsCount(cfg, Step(cfg, s, push), c, at);
  }
}
