/** What the pruned dedup table decides over a whole run. */
module Dedup {
  import opened Models
  import opened Machine
  import Severity

  // ---- the log of a run: what each event offered and whether it was accepted ----

  /** One event of a run. Only a push that is known, enabled and not below its minimum contends;
      an empty key has no identity and rivals nothing. */
  datatype Entry = Entry(category: string, key: string, mono: int, contends: bool, accepted: bool)

  function EntryOf(cfg: Config, s: Core, e: Event): Entry {
    var v := VerdictOf(cfg, s, e);
    if e.action.Push?
    then Entry(e.action.category, e.action.alert.key, e.at.mono, v.Duplicate? || v.Accepted?, v.Accepted?)
    else Entry("", "", e.at.mono, false, false)
  }

  function Log(cfg: Config, s: Core, es: seq<Event>): (r: seq<Entry>)
    ensures |r| == |es|
    ensures forall i :: 0 <= i < |es| ==> r[i].mono == es[i].at.mono
  {
    if es == [] then []
    else
      var pre := es[..|es| - 1];
      Log(cfg, s, pre) + [EntryOf(cfg, Run(cfg, s, pre), es[|es| - 1])]
  }

  /** The monotonic clock never runs backwards. */
  predicate Nondecreasing(es: seq<Event>) {
    forall i, j :: 0 <= i < j < |es| ==> es[i].at.mono <= es[j].at.mono
  }

  predicate Ordered(log: seq<Entry>) {
    forall i, j :: 0 <= i < j < |log| ==> log[i].mono <= log[j].mono
  }

  predicate Rivals(a: Entry, b: Entry) {
    a.key != "" && a.category == b.category && a.key == b.key
  }

  predicate Spaced(a: Entry, b: Entry) {
    Rivals(a, b) ==> b.mono - a.mono >= 5 * 1000
  }

  predicate OfPair(a: Entry, p: Pair) {
    a.key != "" && (a.category, a.key) == p
  }

  // ---- the pruned table against the full log ----

  /** An entry of the table is the time of the pair's last acceptance. */
  ghost predicate LastAcceptance(log: seq<Entry>, p: Pair, t: int) {
    && (exists j :: 0 <= j < |log| && log[j].accepted && OfPair(log[j], p) && log[j].mono == t)
    && (forall j :: 0 <= j < |log| && log[j].accepted && OfPair(log[j], p) ==> log[j].mono <= t)
  }

  /** A logged acceptance is covered by the table, or already more than a window old. */
  ghost predicate Covered(log: seq<Entry>, table: map<Pair, int>, j: nat)
    requires j < |log|
  {
    var p := (log[j].category, log[j].key);
    || (p in table && table[p] >= log[j].mono)
    || (exists k :: j <= k < |log| && log[k].mono > log[j].mono + DEDUP_WINDOW)
  }

  ghost predicate TableSound(log: seq<Entry>, table: map<Pair, int>) {
    && (forall p :: p in table ==> LastAcceptance(log, p, table[p]))
    && (forall j :: 0 <= j < |log| && log[j].accepted && log[j].key != "" ==> Covered(log, table, j))
  }

  lemma LastAcceptanceGrows(log: seq<Entry>, x: Entry, p: Pair, t: int)
    requires LastAcceptance(log, p, t)
    requires x.accepted ==> !OfPair(x, p)
    ensures LastAcceptance(log + [x], p, t)
  {
    var j :| 0 <= j < |log| && log[j].accepted && OfPair(log[j], p) && log[j].mono == t;
    assert (log + [x])[j] == log[j];
  }

  lemma LastAcceptanceNow(log: seq<Entry>, x: Entry, p: Pair)
    requires Ordered(log + [x]) && x.accepted && OfPair(x, p)
    ensures LastAcceptance(log + [x], p, x.mono)
  {
    var l := log + [x];
    assert l[|log|] == x;
    forall j | 0 <= j < |l| && l[j].accepted && OfPair(l[j], p) ensures l[j].mono <= x.mono {
      assert j < |log| ==> l[j].mono <= l[|log|].mono;
    }
  }

  lemma CoveredGrows(log: seq<Entry>, x: Entry, table: map<Pair, int>, next: map<Pair, int>, j: nat)
    requires j < |log| && Covered(log, table, j)
    requires forall p :: p in table ==> (p in next && next[p] >= table[p]) || table[p] < x.mono - DEDUP_WINDOW
    ensures Covered(log + [x], next, j)
  {
    var l := log + [x];
    var p := (log[j].category, log[j].key);
    assert l[j] == log[j] && l[|log|] == x;
    if !(p in table && table[p] >= log[j].mono) {
      var k :| j <= k < |log| && log[k].mono > log[j].mono + DEDUP_WINDOW;
      assert l[k] == log[k];
    }
  }

  lemma TableStep(log: seq<Entry>, x: Entry, table: map<Pair, int>)
    requires Ordered(log + [x]) && TableSound(log, table)
    ensures TableSound(log + [x],
                       if x.accepted && x.key != "" then Recorded(table, (x.category, x.key), x.mono) else table)
  {
    var l := log + [x];
    var q := (x.category, x.key);
    var next := if x.accepted && x.key != "" then Recorded(table, q, x.mono) else table;
    if q in table && x.accepted && x.key != "" {
      var j :| 0 <= j < |log| && log[j].accepted && OfPair(log[j], q) && log[j].mono == table[q];
      assert l[j].mono <= l[|log|].mono;
    }
    forall p | p in next ensures LastAcceptance(l, p, next[p]) {
      if x.accepted && OfPair(x, p) {
        LastAcceptanceNow(log, x, p);
      } else {
        LastAcceptanceGrows(log, x, p, next[p]);
      }
    }
    forall j | 0 <= j < |l| && l[j].accepted && l[j].key != "" ensures Covered(l, next, j) {
      if j < |log| {
        CoveredGrows(log, x, table, next, j);
      }
    }
  }

  /** Against a sound table, suppression is having an accepted rival less than a window old. */
  lemma SuppressionSound(log: seq<Entry>, x: Entry, table: map<Pair, int>)
    requires Ordered(log + [x]) && TableSound(log, table) && x.key != ""
    ensures Suppressed(table, (x.category, x.key), x.mono)
            <==> exists j :: 0 <= j < |log| && log[j].accepted && !Spaced(log[j], x)
  {
    var p := (x.category, x.key);
    var l := log + [x];
    assert forall j :: 0 <= j < |log| ==> l[j] == log[j] && l[j].mono <= l[|log|].mono;
    if Suppressed(table, p, x.mono) {
      var j :| 0 <= j < |log| && log[j].accepted && OfPair(log[j], p) && log[j].mono == table[p];
      assert !Spaced(log[j], x);
    } else {
      forall j | 0 <= j < |log| && log[j].accepted ensures Spaced(log[j], x) {
        if Rivals(log[j], x) {
          assert Covered(log, table, j);
        }
      }
    }
  }

  /** A log decided greedily: accept whatever keeps accepted rivals a window apart. */
  predicate Greedy(log: seq<Entry>) {
    forall i :: 0 <= i < |log| ==>
      (log[i].accepted <==> log[i].contends && forall j :: 0 <= j < i && log[j].accepted ==> Spaced(log[j], log[i]))
  }

  lemma GreedyStep(log: seq<Entry>, x: Entry)
    requires Greedy(log)
    requires x.accepted <==> x.contends && forall j :: 0 <= j < |log| && log[j].accepted ==> Spaced(log[j], x)
    ensures Greedy(log + [x])
  {
    var l := log + [x];
    assert forall j :: 0 <= j < |log| ==> l[j] == log[j];
  }

  /** One event keeps the log greedy and the table sound for it. */
  lemma LogStep(cfg: Config, mid: Core, e: Event, log: seq<Entry>)
    requires Greedy(log) && TableSound(log, mid.lastPushAt) && Ordered(log + [EntryOf(cfg, mid, e)])
    ensures Greedy(log + [EntryOf(cfg, mid, e)])
    ensures TableSound(log + [EntryOf(cfg, mid, e)], Step(cfg, mid, e).lastPushAt)
  {
    hide Greedy, TableSound, Ordered, Recorded, Suppressed, Spaced, Passes, LaneStep;
    var x := EntryOf(cfg, mid, e);
    TableStep(log, x, mid.lastPushAt);
    if x.key != "" {
      SuppressionSound(log, x, mid.lastPushAt);
    } else {
      NoIdentity(log, x);
    }
    GreedyStep(log, x);
  }

  lemma NoIdentity(log: seq<Entry>, x: Entry)
    requires x.key == ""
    ensures forall j :: 0 <= j < |log| ==> Spaced(log[j], x)
  {
  }

  /** The pruned table refines full history: over any run, accept/suppress decisions are those of
      a log that never forgets, and the table stays sound for that log. */
  lemma {:induction false} PrunedTableRefinesFullHistory(cfg: Config, s: Core, es: seq<Event>)
    requires Nondecreasing(es) && s.lastPushAt == map[]
    ensures Greedy(Log(cfg, s, es))
    ensures TableSound(Log(cfg, s, es), Run(cfg, s, es).lastPushAt)
  {
    if es != [] {
      hide Step, EntryOf, Greedy, TableSound;
      var pre, e := es[..|es| - 1], es[|es| - 1];
      PrunedTableRefinesFullHistory(cfg, s, pre);
      LogStep(cfg, Run(cfg, s, pre), e, Log(cfg, s, pre));
    } else {
      assert Log(cfg, s, es) == [];
    }
  }

  lemma ClosedWindow(log: seq<Entry>, x: Entry, table: map<Pair, int>, p: Pair)
    requires Ordered(log + [x]) && x.accepted && x.key != ""
    requires TableSound(log + [x], table) && forall q :: q in table ==> table[q] >= x.mono - DEDUP_WINDOW
    ensures var l := log + [x];
            && (p in table ==> LastAcceptance(l, p, table[p]))
            && (p in table <==> exists j :: 0 <= j < |l| && l[j].accepted && OfPair(l[j], p)
                                            && l[j].mono >= x.mono - DEDUP_WINDOW)
  {
    var l := log + [x];
    assert l[|log|] == x;
    forall j | 0 <= j < |l| && l[j].accepted && OfPair(l[j], p) && l[j].mono >= x.mono - DEDUP_WINDOW
      ensures p in table
    {
      assert Covered(l, table, j);
      assert forall k :: j <= k < |log| ==> l[k].mono <= l[|log|].mono;
    }
  }

  lemma LastStep(cfg: Config, s: Core, es: seq<Event>)
    requires es != []
    ensures var pre, e := es[..|es| - 1], es[|es| - 1];
            && Run(cfg, s, es) == Step(cfg, Run(cfg, s, pre), e)
            && Log(cfg, s, es) == Log(cfg, s, pre) + [EntryOf(cfg, Run(cfg, s, pre), e)]
  {
    hide Step, EntryOf;
  }

  lemma RecordedStep(cfg: Config, s: Core, e: Event)
    ensures EntryOf(cfg, s, e).mono == e.at.mono
    ensures EntryOf(cfg, s, e).accepted && EntryOf(cfg, s, e).key != ""
            ==> forall q :: q in Step(cfg, s, e).lastPushAt ==>
                Step(cfg, s, e).lastPushAt[q] >= e.at.mono - DEDUP_WINDOW
  {
    hide Judge, LaneStep;
  }

  /** Right after an accepted keyed push the table holds exactly the pairs accepted within the
      closed window, each with its last acceptance time. */
  lemma TableIsTheClosedWindow(cfg: Config, s: Core, es: seq<Event>, p: Pair)
    requires Nondecreasing(es) && s.lastPushAt == map[] && es != []
    requires Log(cfg, s, es)[|es| - 1].accepted && Log(cfg, s, es)[|es| - 1].key != ""
    ensures var log, table, now := Log(cfg, s, es), Run(cfg, s, es).lastPushAt, es[|es| - 1].at.mono;
            && (p in table ==> LastAcceptance(log, p, table[p]))
            && (p in table <==> exists j :: 0 <= j < |log| && log[j].accepted && OfPair(log[j], p)
                                            && log[j].mono >= now - DEDUP_WINDOW)
  {
    hide Run, Log, EntryOf, Step, TableSound, LastAcceptance;
    PrunedTableRefinesFullHistory(cfg, s, es);
    LastStep(cfg, s, es);
    var pre, e := es[..|es| - 1], es[|es| - 1];
    var mid := Run(cfg, s, pre);
    RecordedStep(cfg, mid, e);
    ClosedWindow(Log(cfg, s, pre), EntryOf(cfg, mid, e), Run(cfg, s, es).lastPushAt, p);
  }

  // ---- counting ----

  lemma {:induction false} InjectionBound<T, U>(a: set<T>, b: set<U>, f: map<T, U>)
    requires forall x :: x in a ==> x in f && f[x] in b
    requires forall x, y :: x in a && y in a && x != y ==> f[x] != f[y]
    ensures |a| <= |b|
  {
    if a != {} {
      var x :| x in a;
      InjectionBound(a - {x}, b - {f[x]}, f);
    }
  }

  /** The indices of category c's accepted pushes. */
  function AcceptedSet(log: seq<Entry>, c: string): set<nat> {
    set i: nat | i < |log| && log[i].accepted && log[i].category == c
  }

  /** A selection of category c's contenders that keeps rivals a window apart. */
  predicate Feasible(log: seq<Entry>, c: string, picked: set<nat>) {
    && (forall i :: i in picked ==> 0 <= i < |log| && log[i].contends && log[i].category == c)
    && (forall i, j :: i in picked && j in picked && i < j ==> Spaced(log[i], log[j]))
  }

  /** A contender's charge: itself if accepted, else an accepted rival less than a window older. */
  ghost predicate ChargedTo(log: seq<Entry>, i: nat, g: nat) {
    && 0 <= g <= i < |log| && log[g].accepted && log[g].category == log[i].category
    && (g == i || !Spaced(log[g], log[i]))
  }

  lemma {:induction false} ChargeAll(log: seq<Entry>, picked: set<nat>) returns (f: map<nat, nat>)
    requires Greedy(log)
    requires forall i :: i in picked ==> 0 <= i < |log| && log[i].contends
    ensures forall i :: i in picked ==> i in f && ChargedTo(log, i, f[i])
  {
    f := map[];
    if i :| i in picked {
      f := ChargeAll(log, picked - {i});
      var g := i;
      if !log[i].accepted {
        g :| 0 <= g < i && log[g].accepted && !Spaced(log[g], log[i]);
      }
      f := f[i := g];
    }
  }

  /** A selection is no larger than any set that holds all its charges. */
  lemma ChargesAreDistinct(log: seq<Entry>, c: string, picked: set<nat>, charged: set<nat>)
    requires Greedy(log) && Ordered(log) && Feasible(log, c, picked)
    requires forall i, g :: i in picked && ChargedTo(log, i, g) ==> g in charged
    ensures |picked| <= |charged|
  {
    var f := ChargeAll(log, picked);
    forall i, j | i in picked && j in picked && i < j ensures f[i] != f[j] {
      assert ChargedTo(log, i, f[i]) && ChargedTo(log, j, f[j]) && Spaced(log[i], log[j]);
    }
    InjectionBound(picked, charged, f);
  }

  lemma GreedyLogIsOptimal(log: seq<Entry>, c: string, picked: set<nat>)
    requires Greedy(log) && Ordered(log) && Feasible(log, c, picked)
    ensures |picked| <= |AcceptedSet(log, c)|
  {
    ChargesAreDistinct(log, c, picked, AcceptedSet(log, c));
  }

  /** Greedy dedup is optimal: the accepted pushes of a category are a selection of its contenders
      with rivals a window apart, and no such selection is larger. */
  lemma GreedyIsOptimal(cfg: Config, s: Core, es: seq<Event>, c: string, picked: set<nat>)
    requires Nondecreasing(es) && s.lastPushAt == map[]
    ensures var log := Log(cfg, s, es);
            && Feasible(log, c, AcceptedSet(log, c))
            && (Feasible(log, c, picked) ==> |picked| <= |AcceptedSet(log, c)|)
  {
    PrunedTableRefinesFullHistory(cfg, s, es);
    var log := Log(cfg, s, es);
    if Feasible(log, c, picked) {
      GreedyLogIsOptimal(log, c, picked);
    }
  }

  function AcceptedOf(log: seq<Entry>, p: Pair): set<nat> {
    set i: nat | i < |log| && log[i].accepted && OfPair(log[i], p)
  }

  lemma GreedyLogIsOptimalPerPair(log: seq<Entry>, p: Pair, picked: set<nat>)
    requires Greedy(log) && Ordered(log) && Feasible(log, p.0, picked) && forall i :: i in picked ==> OfPair(log[i], p)
    ensures |picked| <= |AcceptedOf(log, p)|
  {
    hide Greedy;
    forall i, g | i in picked && ChargedTo(log, i, g) ensures g in AcceptedOf(log, p) {
      assert OfPair(log[i], p);
    }
    ChargesAreDistinct(log, p.0, picked, AcceptedOf(log, p));
  }

  /** The same for one (category, key): no selection of its contenders a window apart is larger than
      what was accepted. */
  lemma GreedyIsOptimalPerPair(cfg: Config, s: Core, es: seq<Event>, p: Pair, picked: set<nat>)
    requires Nondecreasing(es) && s.lastPushAt == map[]
    ensures var log := Log(cfg, s, es);
            && Feasible(log, p.0, AcceptedOf(log, p))
            && (Feasible(log, p.0, picked) && (forall i :: i in picked ==> OfPair(log[i], p)) ==>
                |picked| <= |AcceptedOf(log, p)|)
  {
    hide Log, Run;
    PrunedTableRefinesFullHistory(cfg, s, es);
    var log := Log(cfg, s, es);
    if Feasible(log, p.0, picked) && forall i :: i in picked ==> OfPair(log[i], p) {
      GreedyLogIsOptimalPerPair(log, p, picked);
    }
  }

  function Below(n: nat): (r: set<nat>)
    ensures |r| == n
    ensures forall k :: k in r <==> 0 <= k < n
  {
    if n == 0 then {} else Below(n - 1) + {n - 1}
  }

  lemma QuotientsDiffer(x: int, y: int)
    requires y - x >= DEDUP_WINDOW
    ensures x / DEDUP_WINDOW < y / DEDUP_WINDOW
  {
  }

  lemma GreedyRate(log: seq<Entry>, p: Pair, from: int, len: nat)
    requires Greedy(log)
    ensures |set i: nat | i < |log| && log[i].accepted && OfPair(log[i], p) && from <= log[i].mono <= from + len|
         <= len / (5 * 1000) + 1
  {
    var hits := set i: nat | i < |log| && log[i].accepted && OfPair(log[i], p) && from <= log[i].mono <= from + len;
    var f := map i | i in hits :: (log[i].mono - from) / DEDUP_WINDOW;
    forall i, j | i in hits && j in hits && i < j ensures f[i] < f[j] {
      assert Spaced(log[i], log[j]);
      QuotientsDiffer(log[i].mono - from, log[j].mono - from);
    }
    InjectionBound(hits, Below(len / DEDUP_WINDOW + 1), f);
  }

  /** Any interval of length len accepts at most floor(len / window) + 1 pushes of one pair. */
  lemma RateBound(cfg: Config, s: Core, es: seq<Event>, p: Pair, from: int, len: nat)
    requires Nondecreasing(es) && s.lastPushAt == map[]
    ensures var log := Log(cfg, s, es);
            |set i: nat | i < |log| && log[i].accepted && OfPair(log[i], p) && from <= log[i].mono <= from + len|
            <= len / (5 * 1000) + 1
  {
    PrunedTableRefinesFullHistory(cfg, s, es);
    GreedyRate(Log(cfg, s, es), p, from, len);
  }

  lemma AcceptedSetGrows(log: seq<Entry>, x: Entry, c: string)
    ensures |AcceptedSet(log + [x], c)| == |AcceptedSet(log, c)| + if x.accepted && x.category == c then 1 else 0
  {
    var l := log + [x];
    assert forall i :: 0 <= i < |log| ==> l[i] == log[i];
    assert AcceptedSet(l, c) == AcceptedSet(log, c) + if x.accepted && x.category == c then {|log|} else {};
  }

  lemma StepAlertCount(cfg: Config, s: Core, e: Event, c: string)
    requires c in s.lanes
    ensures var x := EntryOf(cfg, s, e);
            Step(cfg, s, e).lanes[c].cat.alertCount
            == s.lanes[c].cat.alertCount + if x.accepted && x.category == c then 1 else 0
  {
    hide Passes;
  }

  /** alert_count grows by exactly the number of accepted pushes, whatever else happens. */
  lemma {:induction false} AlertCountCountsAccepted(cfg: Config, s: Core, es: seq<Event>, c: string)
    requires c in s.lanes
    ensures Run(cfg, s, es).lanes[c].cat.alertCount == s.lanes[c].cat.alertCount + |AcceptedSet(Log(cfg, s, es), c)|
  {
    hide Step, EntryOf;
    if es != [] {
      var pre, e := es[..|es| - 1], es[|es| - 1];
      AlertCountCountsAccepted(cfg, s, pre, c);
      AcceptedSetGrows(Log(cfg, s, pre), EntryOf(cfg, Run(cfg, s, pre), e), c);
      StepAlertCount(cfg, Run(cfg, s, pre), e, c);
    }
  }

  /** Under the stricter setting every contender of c was a contender anyway. */
  predicate Narrower(wide: seq<Entry>, narrow: seq<Entry>, c: string) {
    && |wide| == |narrow|
    && forall i :: 0 <= i < |wide| ==>
         && wide[i].(contends := false, accepted := false) == narrow[i].(contends := false, accepted := false)
         && (narrow[i].category == c && narrow[i].contends ==> wide[i].contends)
  }

  lemma NarrowerStep(lax: Config, strict: Config, s: Core, t: Core, e: Event, c: string)
    requires s.lanes.Keys == t.lanes.Keys
    requires forall d :: d in s.lanes ==> s.lanes[d].cat.enabled == t.lanes[d].cat.enabled
    requires Severity.AtMostAsStrict(Severity.EffectiveMinimum(lax.minSeverity, c),
                                     Severity.EffectiveMinimum(strict.minSeverity, c))
    ensures Narrower([EntryOf(lax, s, e)], [EntryOf(strict, t, e)], c)
  {
    hide Severity.Normalize, Severity.EffectiveMinimum;
  }

  lemma {:induction false} ContendersShrink(lax: Config, strict: Config, s: Core, es: seq<Event>, c: string)
    requires Severity.AtMostAsStrict(Severity.EffectiveMinimum(lax.minSeverity, c),
                                     Severity.EffectiveMinimum(strict.minSeverity, c))
    ensures Narrower(Log(lax, s, es), Log(strict, s, es), c)
  {
    hide EntryOf, Run;
    if es != [] {
      var pre, e := es[..|es| - 1], es[|es| - 1];
      ContendersShrink(lax, strict, s, pre, c);
      NarrowerStep(lax, strict, Run(lax, s, pre), Run(strict, s, pre), e, c);
      assert [EntryOf(lax, Run(lax, s, pre), e)][0] == Log(lax, s, es)[|es| - 1];
      assert [EntryOf(strict, Run(strict, s, pre), e)][0] == Log(strict, s, es)[|es| - 1];
    }
  }

  lemma NarrowerAcceptsFewer(wide: seq<Entry>, narrow: seq<Entry>, c: string)
    requires Narrower(wide, narrow, c) && Greedy(wide) && Greedy(narrow) && Ordered(wide)
    requires Feasible(narrow, c, AcceptedSet(narrow, c))
    ensures |AcceptedSet(narrow, c)| <= |AcceptedSet(wide, c)|
  {
    GreedyLogIsOptimal(wide, c, AcceptedSet(narrow, c));
  }

  /** Raising a category's minimum severity never raises its alert_count over the same events. */
  lemma StricterMinimumNeverCountsMore(lax: Config, strict: Config, s: Core, es: seq<Event>, c: string)
    requires Nondecreasing(es) && s.lastPushAt == map[] && c in s.lanes
    requires Severity.AtMostAsStrict(Severity.EffectiveMinimum(lax.minSeverity, c),
                                     Severity.EffectiveMinimum(strict.minSeverity, c))
    ensures Run(strict, s, es).lanes[c].cat.alertCount <= Run(lax, s, es).lanes[c].cat.alertCount
  {
    hide Run, Log;
    PrunedTableRefinesFullHistory(lax, s, es);
    GreedyIsOptimal(strict, s, es, c, {});
    PrunedTableRefinesFullHistory(strict, s, es);
    ContendersShrink(lax, strict, s, es, c);
    NarrowerAcceptsFewer(Log(lax, s, es), Log(strict, s, es), c);
    AlertCountCountsAccepted(strict, s, es, c);
    AlertCountCountsAccepted(lax, s, es, c);
  }
}
