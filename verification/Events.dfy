/** event.py: an entity that fires once per accepted push. */
module EventEntities {
  import opened Wrappers
  import opened Models
  import opened Machine
  import Dedup
  import Severity

  /** The attributes of an alert_received event. */
  datatype Payload = Payload(message: string, category: string, deviceName: string, alertKey: string,
                             severity: string, severityLevel: Severity.Level, site: string, receivedAt: int)

  function PayloadOf(category: string, a: Alert): Payload {
    Payload(a.message, category, a.deviceName, a.key, a.severity, Severity.Normalize(a.severity), a.site, a.receivedAt)
  }

  /** The value of an entity: its counter and the events it has fired, oldest first. */
  datatype Entity = Entity(lastSeenCount: int, fired: seq<Payload>)

  /** Seeding from the restored count when the entity is added. */
  function Added(cat: Cat): Entity {
    Entity(cat.alertCount, [])
  }

  function Handled(category: string, n: Entity, cat: Cat): Entity {
    if cat.lastAlert.Some? && cat.alertCount > n.lastSeenCount
    then Entity(cat.alertCount, n.fired + [PayloadOf(category, cat.lastAlert.value)])
    else n
  }

  class UniFiAlertEventEntity {
    const category: string
    var lastSeenCount: int
    var fired: seq<Payload>

    function View(): Entity
      reads this
    {
      Entity(lastSeenCount, fired)
    }

    constructor (category: string)
      ensures this.category == category && View() == Entity(0, [])
    {
      this.category := category;
      lastSeenCount, fired := 0, [];
    }

    method AddedToHass(state: CategoryState)
      requires fired == []
      modifies this
      ensures View() == Added(state.View())
    {
      lastSeenCount := state.alertCount;
    }

    method HandleCoordinatorUpdate(state: CategoryState)
      modifies this
      ensures View() == Handled(category, old(View()), old(state.View()))
    {
      if state.lastAlert.None? {
        return;
      }
      var newCount := state.alertCount;
      if newCount > lastSeenCount {
        lastSeenCount := newCount;
        var alert := state.lastAlert.value;
        fired := fired + [Payload(alert.message, category, alert.deviceName, alert.key, alert.severity,
                                  Severity.Normalize(alert.severity), alert.site, alert.receivedAt)];
      }
    }
  }

  /** The alerts of c's accepted pushes, in order, as the events an exact observer would fire. */
  function AcceptedPayloads(cfg: Config, s: Core, es: seq<Event>, c: string): seq<Payload> {
    if es == [] then []
    else
      var pre, e := es[..|es| - 1], es[|es| - 1];
      AcceptedPayloads(cfg, s, pre, c) +
      if Accepts(cfg, Run(cfg, s, pre), e, c) then [PayloadOf(c, e.action.alert)] else []
  }

  /** The entity of category c, added at s and notified of every broadcast of the run. */
  function Watching(cfg: Config, s: Core, es: seq<Event>, c: string): Entity
    requires c in s.lanes
  {
    if es == [] then Added(s.lanes[c].cat)
    else
      var pre, e := es[..|es| - 1], es[|es| - 1];
      var n := Watching(cfg, s, pre, c);
      if Notifies(cfg, Run(cfg, s, pre), e) then Handled(c, n, Step(cfg, Run(cfg, s, pre), e).lanes[c].cat) else n
  }

  lemma HandledStep(cfg: Config, s: Core, e: Event, c: string, n: Entity)
    requires c in s.lanes && n.lastSeenCount == s.lanes[c].cat.alertCount
    ensures var hit := Accepts(cfg, s, e, c);
            var cat := Step(cfg, s, e).lanes[c].cat;
            && cat.alertCount == n.lastSeenCount + (if hit then 1 else 0)
            && (hit ==> Notifies(cfg, s, e))
            && Handled(c, n, cat)
               == Entity(cat.alertCount, n.fired + if hit then [PayloadOf(c, e.action.alert)] else [])
  {
    hide Passes, Eligible, Unacknowledged, PayloadOf;
    assert n.fired + [] == n.fired;
  }

  /** Exactly once: whatever interleaving of pushes, duplicates, polls, clears and repeated
      notifications follows, the events fired are those of the accepted pushes, one each, in order. */
  lemma {:induction false} FiresExactlyOncePerAcceptedPush(cfg: Config, s: Core, es: seq<Event>, c: string)
    requires c in s.lanes
    ensures Watching(cfg, s, es, c) == Entity(Run(cfg, s, es).lanes[c].cat.alertCount, AcceptedPayloads(cfg, s, es, c))
    ensures |Watching(cfg, s, es, c).fired| == Run(cfg, s, es).lanes[c].cat.alertCount - s.lanes[c].cat.alertCount
  {
    hide Step, Handled, PayloadOf, Notifies;
    if es != [] {
      var pre, e := es[..|es| - 1], es[|es| - 1];
      FiresExactlyOncePerAcceptedPush(cfg, s, pre, c);
      HandledStep(cfg, Run(cfg, s, pre), e, c, Watching(cfg, s, pre, c));
    }
  }

  /** The alerts of c's applied pushes, in order. */
  function AcceptedAlerts(cfg: Config, s: Core, es: seq<Event>, c: string): seq<Alert> {
    if es == [] then []
    else
      var pre, e := es[..|es| - 1], es[|es| - 1];
      AcceptedAlerts(cfg, s, pre, c) + if Accepts(cfg, Run(cfg, s, pre), e, c) then [e.action.alert] else []
  }

  /** The level of an event, by its alert's own text. */
  ghost predicate LevelSaid(level: Severity.Level, severity: string) {
    && (level == Severity.LOW <==> Severity.Says(severity, "LOW"))
    && (level == Severity.MEDIUM <==> Severity.Says(severity, "MEDIUM"))
    && (level == Severity.HIGH <==> Severity.Says(severity, "HIGH"))
    && (level == Severity.VERY_HIGH <==> Severity.Says(severity, "VERY_HIGH"))
  }

  ghost predicate Carries(p: Payload, c: string, a: Alert) {
    && p.message == a.message && p.category == c && p.deviceName == a.deviceName && p.alertKey == a.key
    && p.severity == a.severity && LevelSaid(p.severityLevel, a.severity) && p.site == a.site
    && p.receivedAt == a.receivedAt
  }

  lemma PayloadCarries(c: string, a: Alert)
    ensures Carries(PayloadOf(c, a), c, a)
  {
    hide Severity.Normalize, Severity.Says;
    Severity.NormalizeSays(a.severity);
  }

  /** The k-th event fired carries every field of the k-th applied push. */
  lemma {:induction false} EventsCarryTheirAlerts(cfg: Config, s: Core, es: seq<Event>, c: string)
    requires c in s.lanes
    ensures var fired, alerts := Watching(cfg, s, es, c).fired, AcceptedAlerts(cfg, s, es, c);
            |fired| == |alerts| && forall i :: 0 <= i < |fired| ==> Carries(fired[i], c, alerts[i])
  {
    hide Watching, Accepts, PayloadOf, Carries, Run;
    FiresExactlyOncePerAcceptedPush(cfg, s, es, c);
    if es != [] {
      var pre, e := es[..|es| - 1], es[|es| - 1];
      EventsCarryTheirAlerts(cfg, s, pre, c);
      FiresExactlyOncePerAcceptedPush(cfg, s, pre, c);
      if Accepts(cfg, Run(cfg, s, pre), e, c) {
        AcceptedIsPush(cfg, Run(cfg, s, pre), e, c);
        PayloadCarries(c, e.action.alert);
      }
    }
  }

  lemma AcceptedIsPush(cfg: Config, s: Core, e: Event, c: string)
    requires Accepts(cfg, s, e, c)
    ensures e.action.Push?
  {
  }

  /** A reload replays nothing: from any restored state, a run without an accepted push of c fires
      no event, however often entities are notified. */
  lemma ReloadReplaysNothing(cfg: Config, s: Core, es: seq<Event>, c: string)
    requires c in s.lanes
    ensures Watching(cfg, s, es, c).fired == [] <==>
            Run(cfg, s, es).lanes[c].cat.alertCount == s.lanes[c].cat.alertCount
  {
    FiresExactlyOncePerAcceptedPush(cfg, s, es, c);
  }
}
