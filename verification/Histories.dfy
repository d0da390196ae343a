/** What each field of a category says about the run behind it. The severity gate is read off the
    setting's and the severity's own texts. */
module Histories {
  import opened Wrappers
  import opened Models
  import opened Machine
  import opened Acknowledgement
  import Dedup
  import Severity

  // ---- verdicts ----

  /** The gate of the pushes and polls of a category, on the texts. */
  lemma PassesExactly(cfg: Config, c: string, a: Alert)
    ensures Passes(cfg, c, a) <==> !Severity.BelowSetting(cfg.minSeverity, c, a.severity)
  {
    hide Severity.BelowSetting, Severity.Normalize, Severity.MeetsMinimum, Severity.EffectiveMinimum;
    Severity.GateExactly(cfg.minSeverity, c, a.severity);
  }

  predicate PushesEnabled(s: Core, e: Event, c: string) {
    e.action.Push? && e.action.category == c && c in s.lanes && s.lanes[c].cat.enabled
  }

  /** A push of c that is held back by its setting. */
  ghost predicate HeldBack(cfg: Config, s: Core, e: Event, c: string) {
    PushesEnabled(s, e, c) && Severity.BelowSetting(cfg.minSeverity, c, e.action.alert.severity)
  }

  /** A push contends for acceptance exactly when its category exists, is enabled, and does not hold it
      back. */
  lemma ContendsExactly(cfg: Config, s: Core, e: Event)
    ensures Dedup.EntryOf(cfg, s, e).contends <==>
            && e.action.Push? && PushesEnabled(s, e, e.action.category)
            && !Severity.BelowSetting(cfg.minSeverity, e.action.category, e.action.alert.severity)
  {
    hide Severity.BelowSetting, Passes;
    if e.action.Push? {
      PassesExactly(cfg, e.action.category, e.action.alert);
    }
  }

  /** A push below the setting changes only filtered_count, last_filtered_at and last_webhook_at of its
      category, and is not broadcast. */
  lemma HeldBackChangesOnly(cfg: Config, s: Core, e: Event, c: string)
    requires HeldBack(cfg, s, e, c)
    ensures var lane, at := s.lanes[c], Some(e.action.alert.receivedAt);
            var cat := lane.cat.(filteredCount := lane.cat.filteredCount + 1, filteredAt := at, webhookAt := at);
            Step(cfg, s, e) == s.(lanes := s.lanes[c := lane.(cat := cat)])
    ensures !Notifies(cfg, s, e)
  {
    PassesExactly(cfg, c, e.action.alert);
    hide Severity.BelowSetting, Passes;
    var lane, at := s.lanes[c], Some(e.action.alert.receivedAt);
    var cat := lane.cat.(filteredCount := lane.cat.filteredCount + 1, filteredAt := at, webhookAt := at);
    assert Step(cfg, s, e).lanes == s.lanes[c := lane.(cat := cat)];
  }

  /** A push that is neither applied nor held back changes nothing and is not broadcast. */
  lemma IgnoredChangesNothing(cfg: Config, s: Core, e: Event)
    requires e.action.Push? && !Accepts(cfg, s, e, e.action.category) && !HeldBack(cfg, s, e, e.action.category)
    ensures Step(cfg, s, e) == s && !Notifies(cfg, s, e)
  {
    PassesExactly(cfg, e.action.category, e.action.alert);
    hide Severity.BelowSetting, Passes;
    assert Step(cfg, s, e).lanes == s.lanes;
  }

  /** A push is broadcast exactly when it is applied. */
  lemma BroadcastExactly(cfg: Config, s: Core, e: Event)
    requires e.action.Push?
    ensures Notifies(cfg, s, e) <==> Accepts(cfg, s, e, e.action.category)
  {
    hide VerdictOf;
  }

  // ---- one step, field by field ----

  predicate AfterMark(cat: Cat, a: Alert) {
    cat.clearedAt.Some? ==> a.receivedAt > cat.clearedAt.value
  }

  /** The fields only pushes touch. */
  lemma PushFieldsStep(cfg: Config, s: Core, e: Event, c: string)
    requires c in s.lanes
    ensures var cat, next := s.lanes[c].cat, Step(cfg, s, e).lanes[c].cat;
            && next.filteredCount == cat.filteredCount + (if HeldBack(cfg, s, e, c) then 1 else 0)
            && next.alertCount == cat.alertCount + (if Accepts(cfg, s, e, c) then 1 else 0)
            && next.filteredAt == (if HeldBack(cfg, s, e, c) then Some(e.action.alert.receivedAt) else cat.filteredAt)
            && next.webhookAt == (if HeldBack(cfg, s, e, c) || Accepts(cfg, s, e, c)
                                  then Some(e.action.alert.receivedAt) else cat.webhookAt)
  {
    if e.action.Push? {
      PassesExactly(cfg, e.action.category, e.action.alert);
    }
    hide Severity.BelowSetting, Passes, Eligible, Unacknowledged, MostRecent, NewestSeen, Scheduled, Unscheduled,
      WithStatus, ClearDelay;
  }

  /** open_count between polls: only applied pushes stamped after the watermark add to it. */
  lemma OpenCountStep(cfg: Config, s: Core, e: Event, c: string)
    requires c in s.lanes && !e.action.Poll?
    ensures Step(cfg, s, e).lanes[c].cat.openCount
         == s.lanes[c].cat.openCount
            + if Accepts(cfg, s, e, c) && AfterMark(s.lanes[c].cat, e.action.alert) then 1 else 0
  {
    hide Judge, Scheduled, Unscheduled, WithStatus, ClearDelay;
  }

  /** An eligible alarm of c after its watermark. */
  ghost predicate Counts(cfg: Config, c: string, cat: Cat, a: Alert) {
    !Severity.BelowSetting(cfg.minSeverity, c, a.severity) && AfterMark(cat, a)
  }

  /** The first of the newest alarms that count. */
  ghost predicate FirstNewest(cfg: Config, c: string, cat: Cat, xs: seq<Alert>, i: int) {
    && 0 <= i < |xs| && Counts(cfg, c, cat, xs[i])
    && forall j :: 0 <= j < |xs| && Counts(cfg, c, cat, xs[j]) ==>
         xs[j].receivedAt <= xs[i].receivedAt && (j < i ==> xs[j].receivedAt < xs[i].receivedAt)
  }

  function Counted(cfg: Config, c: string, cat: Cat, xs: seq<Alert>): seq<Alert> {
    Unacknowledged(cat.clearedAt, Eligible(cfg, c, xs))
  }

  lemma CountedSnoc(cfg: Config, c: string, cat: Cat, xs: seq<Alert>, a: Alert)
    ensures Counted(cfg, c, cat, xs + [a]) == Counted(cfg, c, cat, xs) + if Counts(cfg, c, cat, a) then [a] else []
  {
    PassesExactly(cfg, c, a);
    hide Severity.BelowSetting, Passes, Eligible, Unacknowledged;
    EligibleSnoc(cfg, c, xs, a);
    UnacknowledgedSnoc(cat.clearedAt, Eligible(cfg, c, xs), a);
    assert Eligible(cfg, c, xs) + [] == Eligible(cfg, c, xs);
  }

  lemma MostRecentSnoc(ys: seq<Alert>, a: Alert)
    ensures MostRecent(ys + [a]) == if ys != [] && a.receivedAt <= MostRecent(ys).receivedAt then MostRecent(ys) else a
  {
    assert (ys + [a])[..|ys|] == ys;
  }

  lemma FirstNewestSnoc(cfg: Config, c: string, cat: Cat, xs: seq<Alert>, a: Alert, i: int)
    requires FirstNewest(cfg, c, cat, xs, i)
    ensures !Counts(cfg, c, cat, a) || a.receivedAt <= xs[i].receivedAt ==> FirstNewest(cfg, c, cat, xs + [a], i)
    ensures Counts(cfg, c, cat, a) && a.receivedAt > xs[i].receivedAt ==> FirstNewest(cfg, c, cat, xs + [a], |xs|)
  {
    hide Counts;
    assert forall j :: 0 <= j < |xs| ==> (xs + [a])[j] == xs[j];
  }

  ghost predicate Picked(cfg: Config, c: string, cat: Cat, xs: seq<Alert>, i: int) {
    var counted := Counted(cfg, c, cat, xs);
    && (counted == [] <==> forall j :: 0 <= j < |xs| ==> !Counts(cfg, c, cat, xs[j]))
    && (counted != [] ==> FirstNewest(cfg, c, cat, xs, i) && MostRecent(counted) == xs[i])
  }

  lemma PickedAnother(cfg: Config, c: string, cat: Cat, xs: seq<Alert>, a: Alert, i: int)
    requires Picked(cfg, c, cat, xs, i) && !Counts(cfg, c, cat, a)
    ensures Picked(cfg, c, cat, xs + [a], i)
  {
    hide Counts, Counted, MostRecent;
    CountedSnoc(cfg, c, cat, xs, a);
    assert Counted(cfg, c, cat, xs) + [] == Counted(cfg, c, cat, xs);
    if Counted(cfg, c, cat, xs) != [] {
      FirstNewestSnoc(cfg, c, cat, xs, a, i);
    }
    SnocAt(xs, a);
  }

  lemma PickedFirst(cfg: Config, c: string, cat: Cat, xs: seq<Alert>, a: Alert, i: int)
    requires Picked(cfg, c, cat, xs, i) && Counted(cfg, c, cat, xs) == [] && Counts(cfg, c, cat, a)
    ensures Picked(cfg, c, cat, xs + [a], |xs|)
  {
    hide Counts, Counted, MostRecent, FirstNewest;
    CountedSnoc(cfg, c, cat, xs, a);
    MostRecentSnoc([], a);
    assert [] + [a] == [a];
    SnocAt(xs, a);
    OnlyOneCounts(cfg, c, cat, xs + [a]);
  }

  lemma PickedOrNewer(cfg: Config, c: string, cat: Cat, xs: seq<Alert>, a: Alert, i: int)
    ensures Picked(cfg, c, cat, xs, i) && Counted(cfg, c, cat, xs) != [] && Counts(cfg, c, cat, a) ==>
              0 <= i < |xs| && Picked(cfg, c, cat, xs + [a], if a.receivedAt > xs[i].receivedAt then |xs| else i)
  {
    hide Counts, Counted, MostRecent, FirstNewest;
    if Picked(cfg, c, cat, xs, i) && Counted(cfg, c, cat, xs) != [] && Counts(cfg, c, cat, a) {
      FirstNewestIndex(cfg, c, cat, xs, i);
      CountedSnoc(cfg, c, cat, xs, a);
      MostRecentSnoc(Counted(cfg, c, cat, xs), a);
      FirstNewestSnoc(cfg, c, cat, xs, a, i);
      SnocAt(xs, a);
    }
  }

  lemma SnocAt(xs: seq<Alert>, a: Alert)
    ensures (xs + [a])[|xs|] == a && forall j :: 0 <= j < |xs| ==> (xs + [a])[j] == xs[j]
  {
  }

  /** What the poll picks is the first newest of the alarms that count, if any does. */
  lemma {:induction false} PicksFirstNewest(cfg: Config, c: string, cat: Cat, xs: seq<Alert>) returns (i: int)
    ensures Picked(cfg, c, cat, xs, i)
  {
    i := 0;
    if xs != [] {
      hide Counts, Counted, Picked;
      var pre, a := xs[..|xs| - 1], xs[|xs| - 1];
      assert xs == pre + [a];
      i := PicksFirstNewest(cfg, c, cat, pre);
      if !Counts(cfg, c, cat, a) {
        PickedAnother(cfg, c, cat, pre, a, i);
      } else if Counted(cfg, c, cat, pre) == [] {
        PickedFirst(cfg, c, cat, pre, a, i);
        i := |pre|;
      } else {
        PickedOrNewer(cfg, c, cat, pre, a, i);
        i := if a.receivedAt > pre[i].receivedAt then |pre| else i;
      }
    }
  }

  lemma FirstNewestIndex(cfg: Config, c: string, cat: Cat, xs: seq<Alert>, i: int)
    requires FirstNewest(cfg, c, cat, xs, i)
    ensures 0 <= i < |xs|
  {
  }

  lemma OnlyOneCounts(cfg: Config, c: string, cat: Cat, xs: seq<Alert>)
    requires xs != [] && Counts(cfg, c, cat, xs[|xs| - 1])
    requires forall j :: 0 <= j < |xs| - 1 ==> !Counts(cfg, c, cat, xs[j])
    ensures FirstNewest(cfg, c, cat, xs, |xs| - 1)
  {
    hide Counts;
  }

  /** The poll found an alarm of c that counts. */
  ghost predicate FindsSome(cfg: Config, s: Core, e: Event, c: string)
    requires c in s.lanes
  {
    && e.action.Poll? && s.lanes[c].cat.enabled && c in e.action.found
    && exists a :: a in e.action.found[c] && Counts(cfg, c, s.lanes[c].cat, a)
  }

  /** last_alert changes in two ways only: an applied push becomes it, and a poll that makes a silent
      category alert sets it to the first of the newest alarms that count. */
  lemma LastAlertStep(cfg: Config, s: Core, e: Event, c: string)
    requires c in s.lanes
    ensures var cat, next := s.lanes[c].cat, Step(cfg, s, e).lanes[c].cat;
            if Accepts(cfg, s, e, c) then next.lastAlert == Some(e.action.alert)
            else if FindsSome(cfg, s, e, c) && !cat.alerting then
              exists i :: FirstNewest(cfg, c, cat, e.action.found[c], i) && next.lastAlert == Some(e.action.found[c][i])
            else next.lastAlert == cat.lastAlert
  {
    hide Judge, Scheduled, Unscheduled, WithStatus, ClearDelay, Eligible, Unacknowledged, MostRecent, NewestSeen,
      Counts, FirstNewest;
    if e.action.Poll? && c in e.action.found {
      var i := PicksFirstNewest(cfg, c, s.lanes[c].cat, e.action.found[c]);
    }
  }

  /** A category alerts after a step exactly when the step applies a push of it or finds an alarm that
      counts, or when it alerted before and the step does not clear it. */
  lemma AlertingStep(cfg: Config, s: Core, e: Event, c: string)
    requires c in s.lanes
    ensures Step(cfg, s, e).lanes[c].cat.alerting <==>
            Accepts(cfg, s, e, c) || FindsSome(cfg, s, e, c) || (s.lanes[c].cat.alerting && !Clears(s, e, c))
  {
    hide Judge, Scheduled, Unscheduled, ClearDelay, Eligible, Unacknowledged, MostRecent, NewestSeen, Counts,
      FirstNewest;
    if e.action.Poll? && c in e.action.found {
      var i := PicksFirstNewest(cfg, c, s.lanes[c].cat, e.action.found[c]);
    }
  }

  /** Polls leave a disabled category exactly as it is. */
  lemma DisabledUnpolled(cfg: Config, s: Core, e: Event, c: string)
    requires c in s.lanes && !s.lanes[c].cat.enabled && e.action.Poll?
    ensures Step(cfg, s, e).lanes[c] == s.lanes[c]
  {
  }

  // ---- whole runs ----

  /** How many applied pushes of c were stamped after the watermark in force when they were applied. */
  function PushesAfterMark(cfg: Config, s: Core, es: seq<Event>, c: string): nat
    requires c in s.lanes
  {
    if es == [] then 0
    else
      var mid, e := Run(cfg, s, es[..|es| - 1]), es[|es| - 1];
      PushesAfterMark(cfg, s, es[..|es| - 1], c)
      + if Accepts(cfg, mid, e, c) && AfterMark(mid.lanes[c].cat, e.action.alert) then 1 else 0
  }

  /** From any state, through any run without a poll, open_count grows by the applied pushes stamped
      after the watermark in force when they were applied. */
  lemma {:induction false} OpenCountBetweenPolls(cfg: Config, s: Core, es: seq<Event>, c: string)
    requires c in s.lanes && forall e :: e in es ==> !e.action.Poll?
    ensures Run(cfg, s, es).lanes[c].cat.openCount == s.lanes[c].cat.openCount + PushesAfterMark(cfg, s, es, c)
  {
    hide Step, Accepts, AfterMark;
    if es != [] {
      OpenCountBetweenPolls(cfg, s, es[..|es| - 1], c);
      OpenCountStep(cfg, Run(cfg, s, es[..|es| - 1]), es[|es| - 1], c);
    }
  }

  ghost function HeldBackCount(cfg: Config, s: Core, es: seq<Event>, c: string): nat {
    if es == [] then 0
    else
      var mid, e := Run(cfg, s, es[..|es| - 1]), es[|es| - 1];
      HeldBackCount(cfg, s, es[..|es| - 1], c) + if HeldBack(cfg, mid, e, c) then 1 else 0
  }

  /** The stamp of the last push of c in this run that was held back, or, when told, applied. */
  ghost function LastPush(cfg: Config, s: Core, es: seq<Event>, c: string, applied: bool,
                          start: Option<int>): Option<int> {
    if es == [] then start
    else
      var mid, e := Run(cfg, s, es[..|es| - 1]), es[|es| - 1];
      if HeldBack(cfg, mid, e, c) || (applied && Accepts(cfg, mid, e, c)) then Some(e.action.alert.receivedAt)
      else LastPush(cfg, s, es[..|es| - 1], c, applied, start)
  }

  /** Over any run: filtered_count grows by the pushes held back, last_filtered_at is the stamp of the
      last of them, and last_webhook_at that of the last push held back or applied. */
  lemma {:induction false} PushFieldsOfRun(cfg: Config, s: Core, es: seq<Event>, c: string)
    requires c in s.lanes
    ensures var cat, end := s.lanes[c].cat, Run(cfg, s, es).lanes[c].cat;
            && end.filteredCount == cat.filteredCount + HeldBackCount(cfg, s, es, c)
            && end.filteredAt == LastPush(cfg, s, es, c, false, cat.filteredAt)
            && end.webhookAt == LastPush(cfg, s, es, c, true, cat.webhookAt)
  {
    hide Step, Accepts, HeldBack;
    if es != [] {
      PushFieldsOfRun(cfg, s, es[..|es| - 1], c);
      PushFieldsStep(cfg, Run(cfg, s, es[..|es| - 1]), es[|es| - 1], c);
    }
  }

  /** The last applied push, poll that found something or clear of c in this run was not a clear. */
  ghost predicate LeftAlerting(cfg: Config, s: Core, es: seq<Event>, c: string)
    requires c in s.lanes
  {
    if es == [] then s.lanes[c].cat.alerting
    else
      var mid, e := Run(cfg, s, es[..|es| - 1]), es[|es| - 1];
      || Accepts(cfg, mid, e, c) || FindsSome(cfg, mid, e, c)
      || (LeftAlerting(cfg, s, es[..|es| - 1], c) && !Clears(mid, e, c))
  }

  lemma {:induction false} AlertingOfRun(cfg: Config, s: Core, es: seq<Event>, c: string)
    requires c in s.lanes
    ensures Run(cfg, s, es).lanes[c].cat.alerting <==> LeftAlerting(cfg, s, es, c)
  {
    hide Step, Accepts, FindsSome, Clears;
    if es != [] {
      AlertingOfRun(cfg, s, es[..|es| - 1], c);
      AlertingStep(cfg, Run(cfg, s, es[..|es| - 1]), es[|es| - 1], c);
    }
  }
}
