/** Two runs side by side: the same inputs with the controller's clock off by a constant. The
    controller stamps the alarms that carry a timestamp. The host stamps the rest: a push when it is
    received, and a polled alarm without a timestamp each time it is polled. */
module ClockSkew {
  import opened Wrappers
  import opened Models
  import opened Machine
  import opened Acknowledgement
  import Severity

  function Moved(o: Option<int>, d: int): Option<int> {
    if o.Some? then Some(o.value + d) else None
  }

  function MovedAlert(a: Alert, d: int): Alert {
    a.(receivedAt := a.receivedAt + d)
  }

  function MovedAlerts(xs: seq<Alert>, d: int): (r: seq<Alert>)
    ensures |r| == |xs|
  {
    if xs == [] then [] else MovedAlerts(xs[..|xs| - 1], d) + [MovedAlert(xs[|xs| - 1], d)]
  }

  /** What the controller stamps moves by d; what only the host stamps moves by h. */
  function MovedCat(c: Cat, d: int, h: int): Cat {
    c.(lastAlert := if c.lastAlert.Some? then Some(MovedAlert(c.lastAlert.value, d)) else None,
    clearedAt := Moved(c.clearedAt, d), newestSeen := Moved(c.newestSeen, d),
    webhookAt := Moved(c.webhookAt, h), filteredAt := Moved(c.filteredAt, h))
  }

  function MovedLane(l: Lane, d: int, h: int): Lane {
    l.(cat := MovedCat(l.cat, d, h))
  }

  // ---- inputs, before anything is stamped ----

  /** A polled alarm; without a timestamp of its own its receivedAt is ignored. */
  datatype Reading = Reading(alert: Alert, stamped: bool)

  type NoPoll = e: Event | !e.action.Poll? witness Event(Clock(0, 0), Refresh)

  datatype Input = Read(at: Clock, found: map<string, seq<Reading>>) | Other(event: NoPoll)

  /** The alert of a reading polled at this host time, controller stamps moved by d, host stamps by h. */
  function ReadAt(x: Reading, wall: int, d: int, h: int): Alert {
    x.alert.(receivedAt := if x.stamped then x.alert.receivedAt + d else wall + h)
  }

  function ReadAll(xs: seq<Reading>, wall: int, d: int, h: int): (r: seq<Alert>)
    ensures |r| == |xs|
  {
    if xs == [] then [] else ReadAll(xs[..|xs| - 1], wall, d, h) + [ReadAt(xs[|xs| - 1], wall, d, h)]
  }

  function ReadFound(found: map<string, seq<Reading>>, wall: int, d: int, h: int): map<string, seq<Alert>> {
    map c | c in found :: ReadAll(found[c], wall, d, h)
  }

  function EventOf(x: Input, d: int, h: int): Event {
    match x
    case Read(at, found) => Event(at, Poll(ReadFound(found, at.wall, d, h)))
    case Other(e) => if e.action.Push? then Event(e.at, Push(e.action.category, MovedAlert(e.action.alert, h))) else e
  }

  function Events(xs: seq<Input>, d: int, h: int): (r: seq<Event>)
    ensures |r| == |xs|
  {
    if xs == [] then [] else Events(xs[..|xs| - 1], d, h) + [EventOf(xs[|xs| - 1], d, h)]
  }

  /** The run on a controller whose clock is d ahead of the host's. */
  function Skewed(xs: seq<Input>, d: int): seq<Event> {
    Events(xs, d, 0)
  }

  /** The host stamps a sighting of c here: an applied push, or an eligible alarm without a timestamp. */
  predicate HostStamps(cfg: Config, s: Core, x: Input, c: string)
    requires c in s.lanes
  {
    match x
    case Read(_, found) =>
      && s.lanes[c].cat.enabled && c in found
      && exists r :: r in found[c] && !r.stamped && Passes(cfg, c, r.alert)
    case Other(_) => Accepts(cfg, s, EventOf(x, 0, 0), c)
  }

  /** Every sighting of c in this run is stamped by the controller. */
  predicate HostFree(cfg: Config, s: Core, xs: seq<Input>, c: string)
    requires c in s.lanes
  {
    xs == [] ||
    (var pre := xs[..|xs| - 1];
     HostFree(cfg, s, pre, c) && !HostStamps(cfg, Run(cfg, s, Skewed(pre, 0)), xs[|xs| - 1], c))
  }

  // ---- every selection commutes with the shift ----

  lemma MovedSnoc(xs: seq<Alert>, a: Alert, d: int)
    ensures MovedAlerts(xs + [a], d) == MovedAlerts(xs, d) + [MovedAlert(a, d)]
  {
    assert (xs + [a])[..|xs|] == xs;
  }

  /** The severity gate does not look at a stamp. */
  lemma PassesAnyhow(cfg: Config, c: string, a: Alert, t: int)
    ensures Passes(cfg, c, a.(receivedAt := t)) == Passes(cfg, c, a)
  {
    hide Severity.Normalize, Severity.EffectiveMinimum;
  }

  lemma EligibleMovesOn(cfg: Config, c: string, xs: seq<Alert>, ys: seq<Alert>, a: Alert, b: Alert, d: int)
    requires Eligible(cfg, c, ys) == MovedAlerts(Eligible(cfg, c, xs), d)
    requires Passes(cfg, c, a) == Passes(cfg, c, b) && (Passes(cfg, c, a) ==> b == MovedAlert(a, d))
    ensures Eligible(cfg, c, ys + [b]) == MovedAlerts(Eligible(cfg, c, xs + [a]), d)
  {
    hide Passes, Eligible, MovedAlerts;
    EligibleSnoc(cfg, c, xs, a);
    EligibleSnoc(cfg, c, ys, b);
    var kept := Eligible(cfg, c, xs);
    MovedSnoc(kept, a, d);
    assert kept + [] == kept && Eligible(cfg, c, ys) + [] == Eligible(cfg, c, ys);
  }

  /** All that is eligible among these moves alike: by the same offset, or by the controller's stamp. */
  predicate MoveAlike(cfg: Config, c: string, xs: seq<Reading>, d: int, h: int) {
    d == h || forall r :: r in xs && !r.stamped ==> !Passes(cfg, c, r.alert)
  }

  lemma LastMovesAlike(cfg: Config, c: string, xs: seq<Reading>, wall: int, d: int, h: int)
    requires xs != [] && MoveAlike(cfg, c, xs, d, h)
    ensures MoveAlike(cfg, c, xs[..|xs| - 1], d, h)
    ensures var a, b := ReadAt(xs[|xs| - 1], wall, 0, 0), ReadAt(xs[|xs| - 1], wall, d, h);
            Passes(cfg, c, a) == Passes(cfg, c, b) && (Passes(cfg, c, a) ==> b == MovedAlert(a, d))
  {
    hide Passes;
    var x := xs[|xs| - 1];
    PassesAnyhow(cfg, c, x.alert, ReadAt(x, wall, 0, 0).receivedAt);
    PassesAnyhow(cfg, c, x.alert, ReadAt(x, wall, d, h).receivedAt);
  }

  lemma {:induction false} EligibleMoves(cfg: Config, c: string, xs: seq<Reading>, wall: int, d: int, h: int)
    requires MoveAlike(cfg, c, xs, d, h)
    ensures Eligible(cfg, c, ReadAll(xs, wall, d, h)) == MovedAlerts(Eligible(cfg, c, ReadAll(xs, wall, 0, 0)), d)
  {
    if xs != [] {
      hide Passes, Eligible, MovedAlerts, MoveAlike, ReadAt;
      var pre, x := xs[..|xs| - 1], xs[|xs| - 1];
      LastMovesAlike(cfg, c, xs, wall, d, h);
      EligibleMoves(cfg, c, pre, wall, d, h);
      EligibleMovesOn(cfg, c, ReadAll(pre, wall, 0, 0), ReadAll(pre, wall, d, h),
                      ReadAt(x, wall, 0, 0), ReadAt(x, wall, d, h), d);
    }
  }

  lemma {:induction false} UnacknowledgedMoves(mark: Option<int>, xs: seq<Alert>, d: int)
    ensures Unacknowledged(Moved(mark, d), MovedAlerts(xs, d)) == MovedAlerts(Unacknowledged(mark, xs), d)
  {
    if xs != [] {
      UnacknowledgedMoves(mark, xs[..|xs| - 1], d);
      assert MovedAlerts(xs, d)[..|xs| - 1] == MovedAlerts(xs[..|xs| - 1], d);
      var kept := Unacknowledged(mark, xs[..|xs| - 1]);
      assert (kept + [xs[|xs| - 1]])[..|kept|] == kept;
      assert kept + [] == kept;
    }
  }

  lemma {:induction false} MostRecentMoves(xs: seq<Alert>, d: int)
    requires xs != []
    ensures MostRecent(MovedAlerts(xs, d)) == MovedAlert(MostRecent(xs), d)
  {
    assert MovedAlerts(xs, d)[..|xs| - 1] == MovedAlerts(xs[..|xs| - 1], d);
    if |xs| > 1 {
      MostRecentMoves(xs[..|xs| - 1], d);
    }
  }

  lemma NewestSeenShifts(o: Option<int>, xs: seq<Alert>, d: int)
    ensures NewestSeen(Moved(o, d), MovedAlerts(xs, d)) == Moved(NewestSeen(o, xs), d)
  {
    hide MostRecent, MovedAlerts;
    if xs != [] {
      MostRecentMoves(xs, d);
    }
  }

  /** What of a category a poll may hold for its state to move as a whole. */
  predicate MovesAsOne(cfg: Config, c: string, lane: Lane, found: map<string, seq<Reading>>, d: int, h: int) {
    lane.cat.enabled && c in found ==> MoveAlike(cfg, c, found[c], d, h)
  }

  lemma PolledMoves(cfg: Config, c: string, lane: Lane, found: map<string, seq<Reading>>, at: Clock, d: int, h: int)
    requires MovesAsOne(cfg, c, lane, found, d, h)
    ensures Polled(cfg, c, MovedLane(lane, d, h), ReadFound(found, at.wall, d, h), at.mono)
         == MovedLane(Polled(cfg, c, lane, ReadFound(found, at.wall, 0, 0), at.mono), d, h)
  {
    hide Eligible, Unacknowledged, MostRecent, MovedAlerts, NewestSeen, Scheduled, ClearDelay, ReadAll, Passes;
    if lane.cat.enabled && c in found {
      var eligible := Eligible(cfg, c, ReadAll(found[c], at.wall, 0, 0));
      var counted := Unacknowledged(lane.cat.clearedAt, eligible);
      EligibleMoves(cfg, c, found[c], at.wall, d, h);
      UnacknowledgedMoves(lane.cat.clearedAt, eligible, d);
      NewestSeenShifts(lane.cat.newestSeen, eligible, d);
      if counted != [] {
        MostRecentMoves(counted, d);
      }
    }
  }

  lemma PushedMoves(cfg: Config, lane: Lane, a: Alert, v: Verdict, mono: int, d: int, h: int)
    requires d == h || !v.Accepted?
    ensures Pushed(cfg, MovedLane(lane, d, h), MovedAlert(a, h), v, mono)
         == MovedLane(Pushed(cfg, lane, a, v, mono), d, h)
  {
    hide Scheduled, ClearDelay;
  }

  lemma LaneMoves(cfg: Config, s: Core, c: string, x: Input, d: int, h: int)
    requires c in s.lanes && (Clears(s, EventOf(x, 0, 0), c) ==> s.lanes[c].cat.newestSeen.Some?)
    requires d == h || !HostStamps(cfg, s, x, c)
    ensures var v := VerdictOf(cfg, s, EventOf(x, 0, 0));
            LaneStep(cfg, c, MovedLane(s.lanes[c], d, h), EventOf(x, d, h), v)
            == MovedLane(LaneStep(cfg, c, s.lanes[c], EventOf(x, 0, 0), v), d, h)
  {
    hide Polled, Pushed, Unscheduled, WithStatus, ReadFound, Judge, Passes;
    match x
    case Read(at, found) =>
      PolledMoves(cfg, c, s.lanes[c], found, at, d, h);
    case Other(e) =>
      var v := VerdictOf(cfg, s, EventOf(x, 0, 0));
      if e.action.Push? && e.action.category == c {
        assert MovedAlert(e.action.alert, 0) == e.action.alert;
        PushedMoves(cfg, s.lanes[c], e.action.alert, v, e.at.mono, d, h);
      }
  }

  // ---- decisions never look at a stamp ----

  /** Pushes are judged alike in both states. */
  predicate JudgeAlike(s: Core, t: Core) {
    && t.lanes.Keys == s.lanes.Keys && t.lastPushAt == s.lastPushAt
    && forall c :: c in s.lanes ==> t.lanes[c].cat.enabled == s.lanes[c].cat.enabled
  }

  lemma VerdictMoves(cfg: Config, s: Core, t: Core, x: Input, d: int, h: int)
    requires JudgeAlike(s, t)
    ensures VerdictOf(cfg, t, EventOf(x, d, h)) == VerdictOf(cfg, s, EventOf(x, 0, 0))
    ensures JudgeAlike(Step(cfg, s, EventOf(x, 0, 0)), Step(cfg, t, EventOf(x, d, h)))
  {
    hide Severity.Normalize, Severity.EffectiveMinimum, ReadFound, LaneStep, Recorded;
  }

  lemma {:induction false} RunsJudgeAlike(cfg: Config, s: Core, t: Core, xs: seq<Input>, d: int, h: int)
    requires JudgeAlike(s, t)
    ensures JudgeAlike(Run(cfg, s, Skewed(xs, 0)), Run(cfg, t, Events(xs, d, h)))
  {
    hide Step, EventOf, JudgeAlike;
    if xs != [] {
      var pre, x := xs[..|xs| - 1], xs[|xs| - 1];
      RunsJudgeAlike(cfg, s, t, pre, d, h);
      VerdictMoves(cfg, Run(cfg, s, Skewed(pre, 0)), Run(cfg, t, Events(pre, d, h)), x, d, h);
      OneMoreInput(xs, 0, 0);
      OneMoreInput(xs, d, h);
    }
  }

  lemma OneMoreInput(xs: seq<Input>, d: int, h: int)
    requires xs != []
    ensures Events(xs, d, h)[..|xs| - 1] == Events(xs[..|xs| - 1], d, h)
    ensures Events(xs, d, h)[|xs| - 1] == EventOf(xs[|xs| - 1], d, h)
  {
    hide EventOf;
  }

  // ---- a category on a skewed controller ----

  /** Every clear button or service use on c follows a sighting. Nothing is asked of auto-clears. */
  predicate ManualClearsAfterSighting(cfg: Config, s: Core, es: seq<Event>, c: string)
    requires c in s.lanes
  {
    es == [] ||
    (var mid, e := Run(cfg, s, es[..|es| - 1]), es[|es| - 1];
     && ManualClearsAfterSighting(cfg, s, es[..|es| - 1], c)
     && (!e.action.TimerDue? && Clears(mid, e, c) ==> mid.lanes[c].cat.newestSeen.Some?))
  }

  lemma StepMoves(cfg: Config, s: Core, t: Core, x: Input, c: string, d: int, h: int)
    requires JudgeAlike(s, t) && c in s.lanes && t.lanes[c] == MovedLane(s.lanes[c], d, h)
    requires Clears(s, EventOf(x, 0, 0), c) ==> s.lanes[c].cat.newestSeen.Some?
    requires d == h || !HostStamps(cfg, s, x, c)
    ensures Step(cfg, t, EventOf(x, d, h)).lanes[c] == MovedLane(Step(cfg, s, EventOf(x, 0, 0)).lanes[c], d, h)
  {
    hide LaneStep, MovedLane, VerdictOf, TableAfter, EventOf, Clears, HostStamps;
    VerdictMoves(cfg, s, t, x, d, h);
    LaneMoves(cfg, s, c, x, d, h);
  }

  /** Moving the controller's stamps, and what a restored watermark and last alert carry, by d and the
      host's by h moves a category's whole state with them, from any start, when d and h are the same
      or the host stamps no sighting of it. */
  lemma {:induction false} RunMoves(cfg: Config, s: Core, t: Core, xs: seq<Input>, c: string, d: int, h: int)
    requires IsStart(s) && JudgeAlike(s, t) && c in s.lanes && t.lanes[c] == MovedLane(s.lanes[c], d, h)
    requires ManualClearsAfterSighting(cfg, s, Skewed(xs, 0), c) && (d == h || HostFree(cfg, s, xs, c))
    ensures Run(cfg, t, Events(xs, d, h)).lanes[c] == MovedLane(Run(cfg, s, Skewed(xs, 0)).lanes[c], d, h)
  {
    hide Step, EventOf, MovedLane, HostStamps, JudgeAlike;
    RunsJudgeAlike(cfg, s, t, [], d, h);
    if xs != [] {
      var pre, x := xs[..|xs| - 1], xs[|xs| - 1];
      OneMoreInput(xs, 0, 0);
      OneMoreInput(xs, d, h);
      RunMoves(cfg, s, t, pre, c, d, h);
      RunsJudgeAlike(cfg, s, t, pre, d, h);
      AlertingHasSeen(cfg, s, Skewed(pre, 0), c);
      StepMoves(cfg, Run(cfg, s, Skewed(pre, 0)), Run(cfg, t, Events(pre, d, h)), x, c, d, h);
    }
  }

  /** What a user sees of a category fed by alarms with a timestamp alone is blind to the controller's
      clock. */
  lemma SkewIsInvisible(cfg: Config, s: Core, xs: seq<Input>, d: int, c: string)
    requires IsFresh(s) && c in s.lanes && HostFree(cfg, s, xs, c)
    requires ManualClearsAfterSighting(cfg, s, Skewed(xs, 0), c)
    ensures var here, there := Run(cfg, s, Skewed(xs, 0)).lanes[c], Run(cfg, s, Skewed(xs, d)).lanes[c];
            && here.cat.alerting == there.cat.alerting
            && here.cat.openCount == there.cat.openCount
            && here.cat.alertCount == there.cat.alertCount
            && here.timers == there.timers
  {
    hide Run, HostFree, ManualClearsAfterSighting, Events;
    RunMoves(cfg, s, s, xs, c, d, 0);
  }

  // ---- exactly when a clear is skew-proof ----

  /** The category after this run, a clear and a poll, on a controller d ahead. */
  function ClearedThenRead(cfg: Config, s: Core, xs: seq<Input>, c: string, cleared: Clock, at: Clock,
                           found: map<string, seq<Reading>>, d: int): Cat
    requires c in s.lanes
  {
    ClearedThenPolled(cfg, Run(cfg, s, Skewed(xs, d)), c, cleared, at, ReadFound(found, at.wall, d, 0))
  }

  /** The watermark that clear leaves. */
  function MarkAfter(cfg: Config, s: Core, xs: seq<Input>, c: string, cleared: Clock, d: int): int
    requires c in s.lanes
  {
    MarkOf(Run(cfg, s, Skewed(xs, d)).lanes[c].cat, cleared.wall)
  }

  function StampedAlarm(c: string, t: int): Reading {
    Reading(OpenAlarm(c, t), true)
  }

  function UnstampedAlarm(c: string): Reading {
    Reading(OpenAlarm(c, 0), false)
  }

  predicate AllStamped(found: map<string, seq<Reading>>, c: string) {
    c in found ==> forall r :: r in found[c] ==> r.stamped
  }

  /** One open alarm counts alone, by where its stamp falls. */
  lemma OneReadingCounts(cfg: Config, s: Core, xs: seq<Input>, c: string, cleared: Clock, at: Clock, x: Reading, d: int)
    requires c in s.lanes && s.lanes[c].cat.enabled && x.alert == OpenAlarm(c, x.alert.receivedAt)
    ensures var cat := ClearedThenRead(cfg, s, xs, c, cleared, at, map[c := [x]], d);
            var counts := ReadAt(x, at.wall, d, 0).receivedAt > MarkAfter(cfg, s, xs, c, cleared, d);
            cat.openCount == (if counts then 1 else 0) && cat.alerting == counts
  {
    hide Run, ClearedThenPolled, Eligible, Unacknowledged;
    var t := ReadAt(x, at.wall, d, 0).receivedAt;
    assert [x][..0] == [] && ReadAll([x], at.wall, d, 0) == [OpenAlarm(c, t)];
    ClearedThenPolledCounts(cfg, Run(cfg, s, Skewed(xs, d)), c, cleared, at, ReadFound(map[c := [x]], at.wall, d, 0));
    OneAlarmCounts(cfg, c, t, MarkAfter(cfg, s, xs, c, cleared, d));
  }

  lemma SightedMoves(cfg: Config, s: Core, t: Core, x: Input, c: string, d: int)
    requires JudgeAlike(s, t) && c in s.lanes && !HostStamps(cfg, s, x, c)
    ensures Sighted(cfg, t, EventOf(x, d, 0), c) == MovedAlerts(Sighted(cfg, s, EventOf(x, 0, 0), c), d)
  {
    hide Eligible, VerdictOf, Passes, ReadAll;
    VerdictMoves(cfg, s, t, x, d, 0);
    if x.Read? && c in x.found && s.lanes[c].cat.enabled {
      EligibleMoves(cfg, c, x.found[c], x.at.wall, d, 0);
    }
  }

  /** With no host stamp the newest sighting moves with the controller's clock. */
  lemma {:induction false} NewestSeenMoves(cfg: Config, s: Core, xs: seq<Input>, c: string, d: int)
    requires IsStart(s) && c in s.lanes && HostFree(cfg, s, xs, c)
    ensures Run(cfg, s, Skewed(xs, d)).lanes[c].cat.newestSeen
         == Moved(Run(cfg, s, Skewed(xs, 0)).lanes[c].cat.newestSeen, d)
  {
    hide Step, Eligible, MovedAlerts, NewestSeen, HostStamps, EventOf, Sighted;
    if xs != [] {
      var pre, x := xs[..|xs| - 1], xs[|xs| - 1];
      var here, there := Run(cfg, s, Skewed(pre, 0)), Run(cfg, s, Skewed(pre, d));
      OneMoreInput(xs, 0, 0);
      OneMoreInput(xs, d, 0);
      NewestSeenMoves(cfg, s, pre, c, d);
      RunsJudgeAlike(cfg, s, s, pre, d, 0);
      SightedMoves(cfg, here, there, x, c, d);
      NewestSeenStep(cfg, here, EventOf(x, 0, 0), c);
      NewestSeenStep(cfg, there, EventOf(x, d, 0), c);
      NewestSeenShifts(here.lanes[c].cat.newestSeen, Sighted(cfg, here, EventOf(x, 0, 0), c), d);
    }
  }

  /** The host's stamp of a sighting, the same on every controller. */
  function HostStamp(cfg: Config, s: Core, x: Input, c: string): int
    requires c in s.lanes && HostStamps(cfg, s, x, c)
  {
    match x
    case Read(at, _) => at.wall
    case Other(e) => e.action.alert.receivedAt
  }

  lemma {:induction false} ReadIsIn(xs: seq<Reading>, r: Reading, wall: int, d: int, h: int)
    requires r in xs
    ensures ReadAt(r, wall, d, h) in ReadAll(xs, wall, d, h)
  {
    if r != xs[|xs| - 1] {
      ReadIsIn(xs[..|xs| - 1], r, wall, d, h);
    }
  }

  lemma HostStampIsSeen(cfg: Config, s: Core, t: Core, x: Input, c: string, d: int)
    requires JudgeAlike(s, t) && c in s.lanes && HostStamps(cfg, s, x, c)
    ensures exists a :: a in Sighted(cfg, t, EventOf(x, d, 0), c) && a.receivedAt == HostStamp(cfg, s, x, c)
  {
    hide VerdictOf, ReadAll, Severity.Normalize, Severity.EffectiveMinimum;
    VerdictMoves(cfg, s, t, x, d, 0);
    match x
    case Read(at, found) =>
      var r :| r in found[c] && !r.stamped && Passes(cfg, c, r.alert);
      ReadIsIn(found[c], r, at.wall, d, 0);
      assert ReadAt(r, at.wall, d, 0) in Sighted(cfg, t, EventOf(x, d, 0), c);
    case Other(e) =>
      assert e.action.alert == MovedAlert(e.action.alert, 0);
      assert e.action.alert in Sighted(cfg, t, EventOf(x, d, 0), c);
  }

  lemma NewestSeenReaches(o: Option<int>, xs: seq<Alert>, p: int)
    requires exists a :: a in xs && a.receivedAt == p
    ensures NewestSeen(o, xs).Some? && p <= NewestSeen(o, xs).value
  {
  }

  /** A host stamp holds the newest sighting where it is, whatever the controller's clock. */
  lemma {:induction false} HostStampHolds(cfg: Config, s: Core, xs: seq<Input>, c: string) returns (p: int)
    requires c in s.lanes && !HostFree(cfg, s, xs, c)
    ensures forall d: int :: p <= MarkOf(Run(cfg, s, Skewed(xs, d)).lanes[c].cat, p - 1)
  {
    hide Step, HostStamps, EventOf, Sighted, NewestSeen;
    var pre, x := xs[..|xs| - 1], xs[|xs| - 1];
    var here := Run(cfg, s, Skewed(pre, 0));
    if HostStamps(cfg, here, x, c) {
      p := HostStamp(cfg, here, x, c);
    } else {
      p := HostStampHolds(cfg, s, pre, c);
    }
    forall d: int ensures p <= MarkOf(Run(cfg, s, Skewed(xs, d)).lanes[c].cat, p - 1) {
      var there := Run(cfg, s, Skewed(pre, d));
      OneMoreInput(xs, d, 0);
      if HostStamps(cfg, here, x, c) {
        RunsJudgeAlike(cfg, s, s, pre, d, 0);
        HostStampIsSeen(cfg, here, there, x, c, d);
        NewestSeenStep(cfg, there, EventOf(x, d, 0), c);
        NewestSeenReaches(there.lanes[c].cat.newestSeen, Sighted(cfg, there, EventOf(x, d, 0), c), p);
      } else {
        assert p <= MarkOf(there.lanes[c].cat, p - 1);
        AckStep(cfg, there, EventOf(x, d, 0), c);
      }
    }
  }

  /** A clear is skew-proof, for every shift and every later poll of alarms with a timestamp, exactly
      when something of c was seen before it and the controller stamped all of it: no push was applied
      and no eligible alarm without a timestamp was polled. */
  lemma ClearIsSkewProofExactly(cfg: Config, s: Core, xs: seq<Input>, c: string, cleared: Clock)
    requires IsStart(s) && c in s.lanes && s.lanes[c].cat.enabled
    ensures Run(cfg, s, Skewed(xs, 0)).lanes[c].cat.newestSeen.Some? && HostFree(cfg, s, xs, c) <==>
            forall d: int, at, found :: AllStamped(found, c) ==>
              ClearedThenRead(cfg, s, xs, c, cleared, at, found, d).openCount
              == ClearedThenRead(cfg, s, xs, c, cleared, at, found, 0).openCount
  {
    hide Run, ClearedThenRead, HostFree, Events, AllStamped;
    if Run(cfg, s, Skewed(xs, 0)).lanes[c].cat.newestSeen.Some? && HostFree(cfg, s, xs, c) {
      forall d: int, at, found | AllStamped(found, c)
        ensures ClearedThenRead(cfg, s, xs, c, cleared, at, found, d).openCount
             == ClearedThenRead(cfg, s, xs, c, cleared, at, found, 0).openCount
      {
        NewestSeenMoves(cfg, s, xs, c, d);
        SameCount(cfg, s, xs, c, cleared, at, found, d);
      }
    } else {
      var d, found := SkewShows(cfg, s, xs, c, cleared);
      assert ClearedThenRead(cfg, s, xs, c, cleared, cleared, found, d).openCount
          != ClearedThenRead(cfg, s, xs, c, cleared, cleared, found, 0).openCount;
    }
  }

  lemma SameCount(cfg: Config, s: Core, xs: seq<Input>, c: string, cleared: Clock, at: Clock,
                  found: map<string, seq<Reading>>, d: int)
    requires c in s.lanes && s.lanes[c].cat.enabled && AllStamped(found, c)
    requires MarkAfter(cfg, s, xs, c, cleared, d) == MarkAfter(cfg, s, xs, c, cleared, 0) + d
    ensures ClearedThenRead(cfg, s, xs, c, cleared, at, found, d).openCount
         == ClearedThenRead(cfg, s, xs, c, cleared, at, found, 0).openCount
  {
    hide Run, ClearedThenPolled, Events, Eligible, Unacknowledged, MovedAlerts, ReadAll, Passes;
    ClearedThenPolledCounts(cfg, Run(cfg, s, Skewed(xs, 0)), c, cleared, at, ReadFound(found, at.wall, 0, 0));
    ClearedThenPolledCounts(cfg, Run(cfg, s, Skewed(xs, d)), c, cleared, at, ReadFound(found, at.wall, d, 0));
    if c in found {
      EligibleMoves(cfg, c, found[c], at.wall, d, 0);
      UnacknowledgedMoves(Some(MarkAfter(cfg, s, xs, c, cleared, 0)),
                          Eligible(cfg, c, ReadAll(found[c], at.wall, 0, 0)), d);
    }
  }

  /** Otherwise some shift loses an alarm: to the host clock's watermark, or to a host stamp's. */
  lemma SkewShows(cfg: Config, s: Core, xs: seq<Input>, c: string, cleared: Clock)
    returns (d: int, found: map<string, seq<Reading>>)
    requires IsStart(s) && c in s.lanes && s.lanes[c].cat.enabled
    requires Run(cfg, s, Skewed(xs, 0)).lanes[c].cat.newestSeen.None? || !HostFree(cfg, s, xs, c)
    ensures AllStamped(found, c)
    ensures ClearedThenRead(cfg, s, xs, c, cleared, cleared, found, 0).openCount == 1
    ensures ClearedThenRead(cfg, s, xs, c, cleared, cleared, found, d).openCount == 0
  {
    hide Run, ClearedThenRead, HostFree, Events;
    var mark := MarkAfter(cfg, s, xs, c, cleared, 0);
    if HostFree(cfg, s, xs, c) {
      d := -1;
      NewestSeenMoves(cfg, s, xs, c, d);
    } else {
      var p := HostStampHolds(cfg, s, xs, c);
      d := p - (mark + 1);
      assert p <= MarkOf(Run(cfg, s, Skewed(xs, d)).lanes[c].cat, p - 1);
    }
    var x := StampedAlarm(c, mark + 1);
    found := map[c := [x]];
    OneReadingCounts(cfg, s, xs, c, cleared, cleared, x, 0);
    OneReadingCounts(cfg, s, xs, c, cleared, cleared, x, d);
  }

  /** And later polls must carry timestamps: one open alarm without, polled just after a watermark the
      controller stamped, counts when the clocks agree and not on a controller that is ahead. */
  lemma UnstampedAlarmShowsSkew(cfg: Config, s: Core, xs: seq<Input>, c: string, cleared: Clock, d: int)
    requires IsStart(s) && c in s.lanes && s.lanes[c].cat.enabled && HostFree(cfg, s, xs, c)
    requires Run(cfg, s, Skewed(xs, 0)).lanes[c].cat.newestSeen.Some? && d > 0
    ensures var at := Clock(cleared.mono, MarkAfter(cfg, s, xs, c, cleared, 0) + 1);
            var found := map[c := [UnstampedAlarm(c)]];
            && ClearedThenRead(cfg, s, xs, c, cleared, at, found, 0).openCount == 1
            && ClearedThenRead(cfg, s, xs, c, cleared, at, found, d).openCount == 0
  {
    hide Run, ClearedThenRead, HostFree, Events;
    var at := Clock(cleared.mono, MarkAfter(cfg, s, xs, c, cleared, 0) + 1);
    NewestSeenMoves(cfg, s, xs, c, d);
    OneReadingCounts(cfg, s, xs, c, cleared, at, UnstampedAlarm(c), 0);
    OneReadingCounts(cfg, s, xs, c, cleared, at, UnstampedAlarm(c), d);
  }

  // ---- the failing runs ----

  /** What one host-stamped sighting does: an alarm the controller opens right after it is counted when
      the clocks agree and swallowed, alert and all, by a controller that is behind; one the
      controller opened at the same moment is acknowledged when the clocks agree and counted by a
      controller that is ahead. */
  ghost predicate SkewIsVisible(cfg: Config, s: Core, xs: seq<Input>, c: string, at: Clock, d: int)
    requires c in s.lanes
  {
    var next, same := map[c := [StampedAlarm(c, at.wall + 1)]], map[c := [StampedAlarm(c, at.wall)]];
    var missed := ClearedThenRead(cfg, s, xs, c, at, at, next, -d);
    var again := ClearedThenRead(cfg, s, xs, c, at, at, same, d);
    && ClearedThenRead(cfg, s, xs, c, at, at, next, 0).openCount == 1
    && missed.openCount == 0 && !missed.alerting
    && ClearedThenRead(cfg, s, xs, c, at, at, same, 0).openCount == 0
    && again.openCount == 1 && again.alerting
  }

  lemma VisibleFrom(cfg: Config, s: Core, x: Input, c: string, at: Clock, d: int)
    requires c in s.lanes && s.lanes[c].cat.enabled && d > 0
    requires forall k: int :: Run(cfg, s, Skewed([x], k)).lanes[c].cat.newestSeen == Some(at.wall)
    ensures SkewIsVisible(cfg, s, [x], c, at, d)
  {
    hide Run, ClearedThenRead, Events;
    var next, same := StampedAlarm(c, at.wall + 1), StampedAlarm(c, at.wall);
    OneReadingCounts(cfg, s, [x], c, at, at, next, 0);
    OneReadingCounts(cfg, s, [x], c, at, at, next, -d);
    OneReadingCounts(cfg, s, [x], c, at, at, same, 0);
    OneReadingCounts(cfg, s, [x], c, at, at, same, d);
  }

  lemma OneInputSeen(cfg: Config, s: Core, x: Input, c: string, k: int)
    requires c in s.lanes && s.lanes[c].cat.newestSeen.None?
    ensures Run(cfg, s, Skewed([x], k)).lanes[c].cat.newestSeen
         == NewestSeen(None, Sighted(cfg, s, EventOf(x, k, 0), c))
  {
    hide Step, EventOf, Sighted;
    assert [x][..0] == [] && Skewed([x], k) == [EventOf(x, k, 0)];
    assert [EventOf(x, k, 0)][..0] == [];
    NewestSeenStep(cfg, s, EventOf(x, k, 0), c);
  }

  /** After one push, stamped by the host on receipt. */
  lemma SkewShowsAfterAPush(cfg: Config, s: Core, c: string, at: Clock, d: int)
    requires IsFresh(s) && c in s.lanes && s.lanes[c].cat.enabled && d > 0
    ensures SkewIsVisible(cfg, s, [Other(Event(at, Push(c, OpenAlarm(c, at.wall))))], c, at, d)
  {
    hide Run, SkewIsVisible;
    var x := Other(Event(at, Push(c, OpenAlarm(c, at.wall))));
    forall k: int ensures Run(cfg, s, Skewed([x], k)).lanes[c].cat.newestSeen == Some(at.wall) {
      OneInputSeen(cfg, s, x, c, k);
      assert Passes(cfg, c, OpenAlarm(c, at.wall));
    }
    VisibleFrom(cfg, s, x, c, at, d);
  }

  lemma UnstampedAlarmSeen(cfg: Config, s: Core, c: string, at: Clock, k: int)
    requires c in s.lanes && s.lanes[c].cat.enabled
    ensures Sighted(cfg, s, EventOf(Read(at, map[c := [UnstampedAlarm(c)]]), k, 0), c) == [OpenAlarm(c, at.wall)]
  {
    hide Passes, Eligible;
    var a := OpenAlarm(c, at.wall);
    OneAlarmPasses(cfg, c, at.wall);
    assert [UnstampedAlarm(c)][..0] == [] && ReadAll([UnstampedAlarm(c)], at.wall, k, 0) == [a];
  }

  lemma OneAlarmPasses(cfg: Config, c: string, t: int)
    ensures Eligible(cfg, c, [OpenAlarm(c, t)]) == [OpenAlarm(c, t)]
  {
    assert Passes(cfg, c, OpenAlarm(c, t));
    assert [OpenAlarm(c, t)][..0] == [];
  }

  /** After one poll of an alarm without a timestamp, though no push was applied. */
  lemma SkewShowsAfterAnUnstampedAlarm(cfg: Config, s: Core, c: string, at: Clock, d: int)
    requires IsFresh(s) && c in s.lanes && s.lanes[c].cat.enabled && d > 0
    ensures SkewIsVisible(cfg, s, [Read(at, map[c := [UnstampedAlarm(c)]])], c, at, d)
  {
    hide Run, SkewIsVisible;
    var x := Read(at, map[c := [UnstampedAlarm(c)]]);
    forall k: int ensures Run(cfg, s, Skewed([x], k)).lanes[c].cat.newestSeen == Some(at.wall) {
      OneInputSeen(cfg, s, x, c, k);
      UnstampedAlarmSeen(cfg, s, c, at, k);
    }
    VisibleFrom(cfg, s, x, c, at, d);
  }
}
