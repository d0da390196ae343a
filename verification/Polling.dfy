/** One poll from probe to counts: which transport, which window, and what each category counts. */
module Polling {
  import opened Wrappers
  import opened Models
  import opened Machine
  import opened SystemLog
  import opened Client
  import Acknowledgement
  import Constants
  import Persistence
  import Probing
  import Severity

  // ---- the v2 window ----

  predicate Marked(lanes: map<string, Lane>, c: string) {
    c in lanes && lanes[c].cat.enabled && lanes[c].cat.clearedAt.Some?
  }

  /** m is the oldest watermark over enabled categories, None when none has one. */
  ghost predicate IsOldest(lanes: map<string, Lane>, m: Option<int>) {
    && (m.None? <==> forall c :: c in lanes ==> !Marked(lanes, c))
    && (m.Some? ==> exists c :: Marked(lanes, c) && lanes[c].cat.clearedAt == m)
    && (m.Some? ==> forall c :: Marked(lanes, c) ==> m.value <= lanes[c].cat.clearedAt.value)
  }

  /** The oldest watermark reads nothing but the watermarks of enabled categories, and is theirs alone. */
  lemma OldestReadsEnabledOnly(a: map<string, Lane>, b: map<string, Lane>, m: Option<int>, n: Option<int>)
    requires forall c :: c in a && a[c].cat.enabled <==> c in b && b[c].cat.enabled
    requires forall c :: c in a && a[c].cat.enabled ==> a[c].cat.clearedAt == b[c].cat.clearedAt
    requires IsOldest(a, m) && IsOldest(b, n)
    ensures m == n
  {
    assert forall c :: Marked(a, c) <==> Marked(b, c);
    if m.Some? && n.Some? {
      var c :| Marked(a, c) && a[c].cat.clearedAt == m;
      var d :| Marked(b, d) && b[d].cat.clearedAt == n;
      assert Marked(b, c) && Marked(a, d);
    }
  }

  function Max(a: int, b: int): int {
    if a >= b then a else b
  }

  /** timestampFrom: the oldest watermark clamped to the lookback, None for the client's default. */
  function Since(oldest: Option<int>, now: int): Option<int> {
    if oldest.Some? then Some(Max(oldest.value, now - LOOKBACK)) else None
  }

  // ---- where a poll's alarms come from ----

  /** The controller during one poll. */
  datatype Controller = Controller(probe: Probing.Use, legacy: Server, v2: (int, int) -> Pages)

  /** What the coordinator and its client carry from poll to poll. */
  datatype Source = Source(probe: Probing.Probe, memory: Memory, unrecognised: map<string, int>)

  /** The outcome of _fetch_categorised and the legacy and v2 requests it sent. */
  datatype Gathered = Gathered(source: Source, found: Result<map<string, seq<Alert>>, Failure>, legacyRequests: nat,
                               v2Requests: nat)

  function ViaV2(src: Source, oldest: Option<int>, k: Controller, now: int, legacyRequests: nat): Gathered {
    var since := Since(oldest, now);
    match PagesFrom(k.v2(WindowStart(since, now), now), 0)
    case FetchFailed(e, n) => Gathered(src, Err(e), legacyRequests, n)
    case Fetched(events, n, _) =>
      var items := ItemsOf(events, now);
      Gathered(src.(unrecognised := Tally(src.unrecognised, UnclassifiedKeys(items))), Ok(Categorised(items)),
               legacyRequests, n)
  }

  function Gather(src: Source, base: string, site: string, oldest: Option<int>, k: Controller, now: int): Gathered {
    var asked := src.(probe := Probing.Consulted(src.probe, k.probe));
    if Probing.SaysV2(src.probe, k.probe) || site in src.memory.gone then ViaV2(asked, oldest, k, now, 0)
    else
      var a := FetchAlarms(src.memory, base, site, k.legacy);
      var told := asked.(memory := a.memory);
      match a.result
      case Ok(xs) =>
        var items := ItemsOfAlarms(xs, now);
        Gathered(told.(unrecognised := Tally(src.unrecognised, UnclassifiedKeys(items))), Ok(Categorised(items)),
                 a.requests, 0)
      case Err(Http(e)) => Gathered(told, Err(e), a.requests, 0)
      case Err(AlarmEndpointUnavailable) => ViaV2(told, oldest, k, now, a.requests)
  }

  /** One poll of a run: its controller, its oldest watermark, and when it runs. */
  datatype PollInput = PollInput(k: Controller, oldest: Option<int>, now: int)

  function GatherAll(src: Source, base: string, site: string, ps: seq<PollInput>): Source {
    if ps == [] then src
    else
      var p := ps[|ps| - 1];
      Gather(GatherAll(src, base, site, ps[..|ps| - 1]), base, site, p.oldest, p.k, p.now).source
  }

  lemma GatherKeeps(src: Source, base: string, site: string, p: PollInput)
    requires Remembers(src.memory, base)
    ensures var g := Gather(src, base, site, p.oldest, p.k, p.now);
            && Remembers(g.source.memory, base)
            && src.memory.gone <= g.source.memory.gone
            && g.legacyRequests <= 4 && g.v2Requests <= MAX_SYSTEM_LOG_PAGES
            && (site in src.memory.gone ==> g.legacyRequests == 0 && g.source.memory == src.memory)
            && (site in g.source.memory.gone ==> g.v2Requests > 0)
            && (g.found.Err? || g.v2Requests > 0 || (site in g.source.memory.urls && g.legacyRequests > 0))
  {
    hide Remembers, FetchAlarms, PagesFrom, Categorised, ItemsOf, ItemsOfAlarms, UnclassifiedKeys, Tally, AllMissing,
        Candidates;
    FetchKeepsTheCacheSound(src.memory, base, site, p.k.legacy);
    RequestsAreBounded(p.k.v2(WindowStart(Since(p.oldest, p.now), p.now), p.now), 0);
  }

  /** Once discovery has exhausted the legacy paths, no later poll of any run sends a legacy request
      and every one of them uses v2, whatever the probe says. */
  lemma {:induction false} ExhaustionIsForever(src: Source, base: string, site: string, ps: seq<PollInput>,
                                               next: PollInput)
    requires Remembers(src.memory, base) && site in src.memory.gone
    ensures var later := GatherAll(src, base, site, ps);
            && Remembers(later.memory, base) && site in later.memory.gone && later.memory == src.memory
            && var g := Gather(later, base, site, next.oldest, next.k, next.now);
               g.legacyRequests == 0 && g.v2Requests > 0
  {
    hide Gather, Remembers;
    if ps != [] {
      ExhaustionIsForever(src, base, site, ps[..|ps| - 1], ps[|ps| - 1]);
      GatherKeeps(GatherAll(src, base, site, ps[..|ps| - 1]), base, site, ps[|ps| - 1]);
    }
    GatherKeeps(GatherAll(src, base, site, ps), base, site, next);
  }

  // ---- which transport a poll takes ----

  function UsesOf(ps: seq<PollInput>): seq<Probing.Use> {
    if ps == [] then [] else UsesOf(ps[..|ps| - 1]) + [ps[|ps| - 1].k.probe]
  }

  lemma {:induction false} ProbeOfRun(src: Source, base: string, site: string, ps: seq<PollInput>)
    ensures GatherAll(src, base, site, ps).probe == Probing.After(src.probe, UsesOf(ps))
  {
    hide FetchAlarms, PagesFrom, Categorised, ItemsOf, ItemsOfAlarms, UnclassifiedKeys, Tally, Probing.Consulted,
      Probing.SaysV2;
    if ps != [] {
      var uses := UsesOf(ps[..|ps| - 1]);
      ProbeOfRun(src, base, site, ps[..|ps| - 1]);
      assert (uses + [ps[|ps| - 1].k.probe])[..|uses|] == uses;
    }
  }

  /** After any run of polls of an instance, a poll sends no legacy request exactly when some probe
      request sent by it or before it was answered 200 or discovery has exhausted the legacy paths;
      and then it sends at least one v2 request. */
  lemma TransportExactly(src: Source, base: string, site: string, ps: seq<PollInput>, next: PollInput)
    requires src.probe == Probing.UNPROBED && Remembers(src.memory, base)
    ensures var before := GatherAll(src, base, site, ps);
            var g := Gather(before, base, site, next.oldest, next.k, next.now);
            && (g.legacyRequests == 0 <==>
                  || Probing.Confirmed(Probing.UNPROBED, UsesOf(ps) + [next.k.probe])
                  || site in before.memory.gone)
            && (g.legacyRequests == 0 ==> g.v2Requests >= 1)
  {
    hide GatherAll, FetchAlarms, PagesFrom, Categorised, ItemsOf, ItemsOfAlarms, UnclassifiedKeys, Tally, Remembers,
      Probing.Consulted, Probing.SaysV2, Probing.Confirmed, Probing.After, AllMissing, Candidates;
    var before := GatherAll(src, base, site, ps);
    ProbeOfRun(src, base, site, ps);
    RemembersAll(src, base, site, ps);
    Probing.AnswersV2Exactly(UsesOf(ps), next.k.probe);
    FetchKeepsTheCacheSound(before.memory, base, site, next.k.legacy);
    RequestsAreBounded(next.k.v2(WindowStart(Since(next.oldest, next.now), next.now), next.now), 0);
  }

  /** The v2 pages of this poll: its window starts at the oldest watermark, but at most a day back. */
  function PagesOf(p: PollInput): Pages {
    var dayAgo := p.now - 24 * 60 * 60 * 1000;
    p.k.v2(if p.oldest.Some? && p.oldest.value > dayAgo then p.oldest.value else dayAgo, p.now)
  }

  /** The poll takes v2: it is confirmed, or the legacy paths are exhausted, now or before. */
  predicate TakesV2(src: Source, base: string, site: string, p: PollInput) {
    || Probing.SaysV2(src.probe, p.k.probe) || site in src.memory.gone
    || FetchAlarms(src.memory, base, site, p.k.legacy).result == Err(AlarmEndpointUnavailable)
  }

  /** A poll fails exactly when its transport does, with the same error: on v2 the first page that is not
      gone past failed, otherwise the legacy fetch did. It then tallies nothing. */
  lemma PollFailsExactly(src: Source, base: string, site: string, p: PollInput, n: nat)
    requires StopsAt(PagesOf(p), n)
    ensures var g := Gather(src, base, site, p.oldest, p.k, p.now);
            var last := PagesOf(p)(n);
            && (TakesV2(src, base, site, p) ==>
                  && (g.found.Err? <==> last.PageFailed?)
                  && (g.found.Err? ==> g.found == Err(last.error))
                  && g.v2Requests == n + 1)
            && (!TakesV2(src, base, site, p) ==>
                  var legacy := FetchAlarms(src.memory, base, site, p.k.legacy).result;
                  && (g.found.Err? <==> legacy.Err?)
                  && (g.found.Err? ==> legacy == Err(Http(g.found.error)))
                  && g.v2Requests == 0)
            && (g.found.Err? ==> g.source.unrecognised == src.unrecognised)
  {
    hide FetchAlarms, PagesFrom, Categorised, ItemsOf, ItemsOfAlarms, UnclassifiedKeys, Tally, StopsAt, NewOnly,
      EventsBefore, GoesOn, Probing.SaysV2, Probing.Consulted;
    assert PagesOf(p) == p.k.v2(WindowStart(Since(p.oldest, p.now), p.now), p.now);
    FetchesExactly(PagesOf(p), n);
  }

  lemma {:induction false} RemembersAll(src: Source, base: string, site: string, ps: seq<PollInput>)
    requires Remembers(src.memory, base)
    ensures Remembers(GatherAll(src, base, site, ps).memory, base)
  {
    hide Gather, Remembers;
    if ps != [] {
      RemembersAll(src, base, site, ps[..|ps| - 1]);
      GatherKeeps(GatherAll(src, base, site, ps[..|ps| - 1]), base, site, ps[|ps| - 1]);
    }
  }

  /** The key, when it needed the enum fallback or got no category; each is warned about once. */
  function UndocumentedKey(r: Record): set<string> {
    if Constants.ClassifyEventKey(r.key, "") == "" && r.key != "" then {r.key} else {}
  }

  function UndocumentedKeys(rs: seq<Record>): set<string> {
    if rs == [] then {} else UndocumentedKeys(rs[..|rs| - 1]) + UndocumentedKey(rs[|rs| - 1])
  }

  /** The keys remembered are exactly those of events that no key lookup resolves. */
  lemma {:induction false} UndocumentedExactly(rs: seq<Record>, key: string)
    ensures key in UndocumentedKeys(rs) <==>
            key != "" && Constants.ClassifyEventKey(key, "") == "" && exists r :: r in rs && r.key == key
  {
    hide Constants.ClassifyEventKey;
    if rs != [] {
      UndocumentedExactly(rs[..|rs| - 1], key);
    }
  }

  lemma OneMoreEvent(events: seq<Record>, i: nat, now: int)
    requires i < |events|
    ensures ItemsOf(events[..i + 1], now) == ItemsOf(events[..i], now) + [Item(events[i].key, AlertOf(events[i], now))]
    ensures UndocumentedKeys(events[..i + 1]) == UndocumentedKeys(events[..i]) + UndocumentedKey(events[i])
  {
    hide AlertOf, UndocumentedKey;
    assert events[..i + 1][..i] == events[..i];
  }

  lemma NoEvents(now: int)
    ensures ItemsOf([], now) == [] && UndocumentedKeys([]) == {}
  {
  }

  /** Adding a fresh tally of these keys onto a running one. */
  lemma TallyMerges(base: map<string, int>, keys: seq<string>, merged: map<string, int>)
    requires merged.Keys == base.Keys + Tally(map[], keys).Keys
    requires forall k :: k in merged ==> merged[k] == Get(base, k, 0) + Get(Tally(map[], keys), k, 0)
    ensures merged == Tally(base, keys)
  {
    hide Tally;
    TallyKeys(base, keys);
    TallyKeys(map[], keys);
    forall k | k in merged ensures merged[k] == Tally(base, keys)[k] {
      TallyCounts(base, keys, k);
      TallyCounts(map[], keys, k);
    }
  }

  lemma {:induction false} TallyKeys(base: map<string, int>, keys: seq<string>)
    ensures Tally(base, keys).Keys == base.Keys + set k | k in keys
  {
    if keys != [] {
      TallyKeys(base, keys[..|keys| - 1]);
      assert keys == keys[..|keys| - 1] + [keys[|keys| - 1]];
    }
  }

  // ---- conservation over all polls ----

  /** The items a poll sorted, whichever transport carried them; none when it failed. */
  function ItemsGathered(src: Source, base: string, site: string, p: PollInput): seq<Item> {
    var events := PagesFrom(p.k.v2(WindowStart(Since(p.oldest, p.now), p.now), p.now), 0);
    var v2Items := if events.Fetched? then ItemsOf(events.events, p.now) else [];
    if Probing.SaysV2(src.probe, p.k.probe) || site in src.memory.gone then v2Items
    else
      match FetchAlarms(src.memory, base, site, p.k.legacy).result
      case Ok(xs) => ItemsOfAlarms(xs, p.now)
      case Err(Http(_)) => []
      case Err(AlarmEndpointUnavailable) => v2Items
  }

  lemma GatherSortsItems(src: Source, base: string, site: string, p: PollInput)
    ensures var g, items := Gather(src, base, site, p.oldest, p.k, p.now), ItemsGathered(src, base, site, p);
            && (g.found.Ok? ==> g.found.value == Categorised(items))
            && g.source.unrecognised == Tally(src.unrecognised, UnclassifiedKeys(items))
  {
    hide FetchAlarms, PagesFrom, Categorised, ItemsOf, ItemsOfAlarms;
  }

  function AllItems(src: Source, base: string, site: string, ps: seq<PollInput>): seq<Item> {
    if ps == [] then []
    else
      var pre := ps[..|ps| - 1];
      AllItems(src, base, site, pre) + ItemsGathered(GatherAll(src, base, site, pre), base, site, ps[|ps| - 1])
  }

  lemma UnclassifiedSnoc(items: seq<Item>, x: Item)
    ensures UnclassifiedKeys(items + [x])
         == UnclassifiedKeys(items) + if x.alert.category == "" && x.key != "" then [x.key] else []
    ensures UnclassifiedKeys([]) == []
  {
    assert (items + [x])[..|items|] == items;
  }

  lemma {:induction false} UnclassifiedConcat(a: seq<Item>, b: seq<Item>)
    ensures UnclassifiedKeys(a + b) == UnclassifiedKeys(a) + UnclassifiedKeys(b)
  {
    hide UnclassifiedKeys;
    if b == [] {
      assert a + b == a;
      UnclassifiedSnoc([], Item("", Acknowledgement.OpenAlarm("", 0)));
      assert UnclassifiedKeys(a) + [] == UnclassifiedKeys(a);
    } else {
      var pre, x := b[..|b| - 1], b[|b| - 1];
      UnclassifiedConcat(a, pre);
      UnclassifiedSnoc(a + pre, x);
      UnclassifiedSnoc(pre, x);
      assert a + b == a + pre + [x] && b == pre + [x];
    }
  }

  lemma {:induction false} TallyOfAll(src: Source, base: string, site: string, ps: seq<PollInput>)
    ensures GatherAll(src, base, site, ps).unrecognised
            == Tally(src.unrecognised, UnclassifiedKeys(AllItems(src, base, site, ps)))
  {
    hide Gather, ItemsGathered, UnclassifiedKeys, Tally;
    if ps == [] {
      NoKeys(src.unrecognised);
    } else {
      var pre, p := ps[..|ps| - 1], ps[|ps| - 1];
      var mid := GatherAll(src, base, site, pre);
      TallyOfAll(src, base, site, pre);
      GatherSortsItems(mid, base, site, p);
      UnclassifiedConcat(AllItems(src, base, site, pre), ItemsGathered(mid, base, site, p));
      TallyConcat(src.unrecognised, UnclassifiedKeys(AllItems(src, base, site, pre)),
                  UnclassifiedKeys(ItemsGathered(mid, base, site, p)));
    }
  }

  lemma NoKeys(base: map<string, int>)
    ensures Tally(base, UnclassifiedKeys([])) == base
  {
  }

  lemma {:induction false} ItemsAreNamed(rs: seq<Record>, now: int)
    ensures forall x :: x in ItemsOf(rs, now) ==> x.alert.category in Constants.ALL_CATEGORIES || x.alert.category == ""
  {
    hide Constants.ClassifyEventKey;
    if rs != [] {
      var r := rs[|rs| - 1];
      ItemsAreNamed(rs[..|rs| - 1], now);
      Constants.TwoStagesAreOne(r.key, r.v2Category);
      Constants.ClassifiesIntoKnownCategories(r.key, r.v2Category);
    }
  }

  lemma {:induction false} AlarmItemsAreNamed(xs: seq<Alarm>, now: int)
    ensures forall x :: x in ItemsOfAlarms(xs, now) ==>
            x.alert.category in Constants.ALL_CATEGORIES || x.alert.category == ""
  {
    hide Constants.ClassifyEventKey;
    if xs != [] {
      AlarmItemsAreNamed(xs[..|xs| - 1], now);
      Constants.ClassifiesIntoKnownCategories(xs[|xs| - 1].key, "");
    }
  }

  lemma GatheredItemsAreNamed(src: Source, base: string, site: string, p: PollInput)
    ensures forall x :: x in ItemsGathered(src, base, site, p) ==>
            x.alert.category in Constants.ALL_CATEGORIES || x.alert.category == ""
  {
    hide FetchAlarms, PagesFrom, ItemsOf, ItemsOfAlarms;
    var events := PagesFrom(p.k.v2(WindowStart(Since(p.oldest, p.now), p.now), p.now), 0);
    if events.Fetched? {
      ItemsAreNamed(events.events, p.now);
    }
    var a := FetchAlarms(src.memory, base, site, p.k.legacy).result;
    if a.Ok? {
      AlarmItemsAreNamed(a.value, p.now);
    }
  }

  lemma {:induction false} AllItemsAreNamed(src: Source, base: string, site: string, ps: seq<PollInput>)
    ensures forall x :: x in AllItems(src, base, site, ps) ==>
            x.alert.category in Constants.ALL_CATEGORIES || x.alert.category == ""
  {
    hide Gather, ItemsGathered;
    if ps != [] {
      var pre := ps[..|ps| - 1];
      AllItemsAreNamed(src, base, site, pre);
      GatheredItemsAreNamed(GatherAll(src, base, site, pre), base, site, ps[|ps| - 1]);
    }
  }

  /** Categorisation conserves events, cumulatively over any run of polls on either transport:
      everything fetched is in one category list, or one increment of unrecognised_keys under its
      own key, or a keyless drop. */
  lemma PollsConserveEvents(src: Source, base: string, site: string, ps: seq<PollInput>)
    ensures var items := AllItems(src, base, site, ps);
            && |items| == Total(items, Constants.ALL_CATEGORIES) + |UnclassifiedKeys(items)| + KeylessDrops(items)
            && forall key :: Get(GatherAll(src, base, site, ps).unrecognised, key, 0)
                          == Get(src.unrecognised, key, 0) + multiset(UnclassifiedKeys(items))[key]
  {
    hide AllItems, GatherAll, Total, UnclassifiedKeys, Tally;
    AllItemsAreNamed(src, base, site, ps);
    CategorisationConserves(AllItems(src, base, site, ps));
    TallyOfAll(src, base, site, ps);
    forall key ensures Get(GatherAll(src, base, site, ps).unrecognised, key, 0)
                    == Get(src.unrecognised, key, 0) + multiset(UnclassifiedKeys(AllItems(src, base, site, ps)))[key] {
      TallyCounts(src.unrecognised, UnclassifiedKeys(AllItems(src, base, site, ps)), key);
    }
  }

  // ---- what a v2 poll counts ----

  predicate InWindow(r: Record, from: int, to: int) {
    r.timestamp.Some? && from <= r.timestamp.value <= to
  }

  /** The controller's own log, filtered by timestampFrom and timestampTo. */
  function Window(log: seq<Record>, from: int, to: int): seq<Record> {
    if log == [] then []
    else
      var r := log[|log| - 1];
      Window(log[..|log| - 1], from, to) + if InWindow(r, from, to) then [r] else []
  }

  /** Severity of a record as its alert carries it. */
  predicate RecordPasses(cfg: Config, c: string, r: Record) {
    Severity.MeetsMinimum(Severity.Normalize(Persistence.Clip(r.severity, Persistence.SEVERITY_LIMIT)),
                          Severity.EffectiveMinimum(cfg.minSeverity, c))
  }

  /** An open event of c, at or above its minimum, newer than its watermark and no older than a day. */
  predicate Wanted(cfg: Config, c: string, mark: Option<int>, now: int, r: Record) {
    && r.status == "NEW" && CategoryOf(r) == c && RecordPasses(cfg, c, r)
    && r.timestamp.Some? && r.timestamp.value >= now - 24 * 60 * 60 * 1000
    && (mark.None? || r.timestamp.value > mark.value)
  }

  function CountWanted(cfg: Config, c: string, mark: Option<int>, now: int, log: seq<Record>): nat {
    if log == [] then 0
    else CountWanted(cfg, c, mark, now, log[..|log| - 1]) + if Wanted(cfg, c, mark, now, log[|log| - 1]) then 1 else 0
  }

  /** What the poll's own pipeline keeps of a fetched window for c. */
  function Counted(cfg: Config, c: string, mark: Option<int>, now: int, window: seq<Record>): seq<Alert> {
    Unacknowledged(mark, Eligible(cfg, c, OfCategory(ItemsOf(NewOnly(window), now), c)))
  }

  /** One more alert through the gate and past the watermark, or not. */
  lemma OneMoreCounted(cfg: Config, c: string, mark: Option<int>, mine: seq<Alert>, more: seq<Alert>)
    requires |more| <= 1
    ensures |Unacknowledged(mark, Eligible(cfg, c, mine + more))|
         == |Unacknowledged(mark, Eligible(cfg, c, mine))|
            + if more != [] && Passes(cfg, c, more[0]) && NewerThan(mark, more[0]) then 1 else 0
  {
    hide Passes, NewerThan, Eligible, Unacknowledged;
    if more == [] {
      assert mine + more == mine;
    } else {
      assert mine + more == mine + [more[0]];
      EligibleSnoc(cfg, c, mine, more[0]);
      UnacknowledgedSnoc(mark, Eligible(cfg, c, mine), more[0]);
      assert Eligible(cfg, c, mine) + [] == Eligible(cfg, c, mine);
    }
  }

  lemma OneMoreRecord(c: string, now: int, window: seq<Record>, r: Record)
    ensures var a := AlertOf(r, now);
            OfCategory(ItemsOf(NewOnly(window + [r]), now), c)
            == OfCategory(ItemsOf(NewOnly(window), now), c)
               + if r.status == "NEW" && a.category == c then [a] else []
  {
    hide AlertOf;
    assert (window + [r])[..|window|] == window;
    var kept := NewOnly(window);
    assert (kept + [r])[..|kept|] == kept && kept + [] == kept;
    var items, x := ItemsOf(kept, now), Item(r.key, AlertOf(r, now));
    assert (items + [x])[..|items|] == items;
    assert OfCategory(items, c) + [] == OfCategory(items, c);
  }

  lemma RecordPassesAsAlert(cfg: Config, c: string, r: Record, now: int)
    ensures Passes(cfg, c, AlertOf(r, now)) == RecordPasses(cfg, c, r)
  {
    hide Severity.Normalize, Severity.EffectiveMinimum, CategoryOf, MessageOf, Persistence.Clip;
  }

  lemma CountedGrows(cfg: Config, c: string, mark: Option<int>, now: int, window: seq<Record>, r: Record)
    requires r.timestamp.Some?
    ensures |Counted(cfg, c, mark, now, window + [r])|
         == |Counted(cfg, c, mark, now, window)|
            + if && r.status == "NEW" && CategoryOf(r) == c && RecordPasses(cfg, c, r)
                 && (mark.None? || r.timestamp.value > mark.value) then 1 else 0
  {
    hide Passes, RecordPasses, AlertOf, CategoryOf, Eligible, Unacknowledged, OfCategory, ItemsOf, NewOnly;
    var a := AlertOf(r, now);
    OneMoreRecord(c, now, window, r);
    RecordPassesAsAlert(cfg, c, r, now);
    OneMoreCounted(cfg, c, mark, OfCategory(ItemsOf(NewOnly(window), now), c),
                   if r.status == "NEW" && a.category == c then [a] else []);
  }

  /** The window reaches far enough back for a category with this watermark. */
  predicate WindowCovers(mark: Option<int>, oldest: Option<int>, now: int) {
    mark.Some? || oldest.None? || oldest.value <= now - LOOKBACK
  }

  predicate LogUpTo(log: seq<Record>, now: int) {
    forall r :: r in log ==> r.timestamp.Some? && r.timestamp.value <= now
  }

  lemma {:induction false} CountedIsWanted(cfg: Config, c: string, mark: Option<int>, oldest: Option<int>, now: int,
                                           log: seq<Record>)
    requires LogUpTo(log, now) && WindowCovers(mark, oldest, now)
    requires mark.Some? && oldest.Some? ==> oldest.value <= now - LOOKBACK || Min(oldest.value - 1, now) <= mark.value
    ensures |Counted(cfg, c, mark, now, Window(log, WindowStart(Since(oldest, now), now), now))|
            == CountWanted(cfg, c, mark, now, log)
  {
    hide Counted, CategoryOf, RecordPasses;
    if log == [] {
      NothingCounted(cfg, c, mark, now);
    } else {
      var pre, r := log[..|log| - 1], log[|log| - 1];
      var from := WindowStart(Since(oldest, now), now);
      CountedIsWanted(cfg, c, mark, oldest, now, pre);
      assert r in log;
      CountedGrows(cfg, c, mark, now, Window(pre, from, now), r);
      assert Window(pre, from, now) + [] == Window(pre, from, now);
    }
  }

  lemma NothingCounted(cfg: Config, c: string, mark: Option<int>, now: int)
    ensures Counted(cfg, c, mark, now, []) == []
  {
  }

  /** The controller answering with its log. */
  function Holding(log: seq<Record>): (int, int) -> Pages {
    (from, to) => Serving(Window(log, from, to))
  }

  /** open_count of c after a v2 poll of this log, the watermark read at `mark` when it is applied. */
  function OpenCountAfter(cfg: Config, s: Core, c: string, oldest: Option<int>, at: Clock, log: seq<Record>): int
    requires c in s.lanes
  {
    var fetch := PagesFrom(Holding(log)(WindowStart(Since(oldest, at.wall), at.wall), at.wall), 0);
    if fetch.FetchFailed? then s.lanes[c].cat.openCount
    else Step(cfg, s, Event(at, Poll(Categorised(ItemsOf(fetch.events, at.wall))))).lanes[c].cat.openCount
  }

  /** That is the poll the coordinator makes whenever it takes the v2 path: it succeeds, and applying
      what it gathered gives this count. */
  lemma OpenCountOfPoll(cfg: Config, s: Core, c: string, src: Source, base: string, site: string, k: Controller,
                        oldest: Option<int>, at: Clock, log: seq<Record>)
    requires c in s.lanes && k.v2 == Holding(log)
    requires Probing.SaysV2(src.probe, k.probe) || site in src.memory.gone
    ensures var g := Gather(src, base, site, oldest, k, at.wall);
            && g.found.Ok? && g.legacyRequests == 0
            && Step(cfg, s, Event(at, Poll(g.found.value))).lanes[c].cat.openCount
                == OpenCountAfter(cfg, s, c, oldest, at, log)
  {
    hide Step, PagesFrom, Categorised, ItemsOf, Window, Tally, UnclassifiedKeys;
    PaginationIsExact(Window(log, WindowStart(Since(oldest, at.wall), at.wall), at.wall));
  }

  lemma OpenCountIsCounted(cfg: Config, s: Core, c: string, oldest: Option<int>, at: Clock, log: seq<Record>)
    requires c in s.lanes && s.lanes[c].cat.enabled && c != ""
    requires |Window(log, WindowStart(Since(oldest, at.wall), at.wall), at.wall)| <= FETCH_CAP
    ensures OpenCountAfter(cfg, s, c, oldest, at, log)
         == |Counted(cfg, c, s.lanes[c].cat.clearedAt, at.wall,
                     Window(log, WindowStart(Since(oldest, at.wall), at.wall), at.wall))|
  {
    var window := Window(log, WindowStart(Since(oldest, at.wall), at.wall), at.wall);
    PaginationIsExact(window);
    hide Window, PagesFrom, Eligible, Unacknowledged, OfCategory, ItemsOf, Scheduled;
    assert window[..|window|] == window;
    CategorisedIsExact(ItemsOf(NewOnly(window), at.wall), c);
    hide Categorised;
    EmptyCounts(cfg, c, s.lanes[c].cat.clearedAt);
  }

  lemma EmptyCounts(cfg: Config, c: string, mark: Option<int>)
    ensures Unacknowledged(mark, Eligible(cfg, c, [])) == []
  {
  }

  ghost predicate FitsOneFetch(log: seq<Record>, oldest: Option<int>, now: int) {
    LogUpTo(log, now) && |Window(log, WindowStart(Since(oldest, now), now), now)| <= FETCH_CAP
  }

  lemma OldestIsBelow(lanes: map<string, Lane>, oldest: Option<int>, c: string)
    requires IsOldest(lanes, oldest) && Marked(lanes, c)
    ensures oldest.Some? && oldest.value <= lanes[c].cat.clearedAt.value
  {
  }

  /** One open event of c of unknown severity, at time x before the window opens. */
  lemma MissedEvent(cfg: Config, c: string, oldest: Option<int>, now: int, mark: Option<int>, x: int)
    returns (log: seq<Record>)
    requires c in Constants.ALL_CATEGORIES && oldest.Some? && now - LOOKBACK <= x <= now && x < oldest.value
    requires mark.Some? ==> mark.value < x
    ensures FitsOneFetch(log, oldest, now)
    ensures CountWanted(cfg, c, mark, now, log) == 1
    ensures Window(log, WindowStart(Since(oldest, now), now), now) == []
  {
    var key, v2Enum := Constants.SomeEventOf(c);
    hide Constants.ResolveInTwoStages;
    var r := OpenEvent(key, v2Enum, x);
    assert RecordPasses(cfg, c, r) by {
      assert Severity.Normalize(r.severity) == Severity.UNKNOWN;
    }
    hide RecordPasses;
    log := [r];
    assert log[..0] == [];
    assert LogUpTo(log, now);
    assert Window(log, WindowStart(Since(oldest, now), now), now) == [];
  }

  /** A v2 poll end to end: with at most 1000 events in the window, none from the future, an enabled
      category's open_count is the number of NEW eligible events of that category newer than both
      its own watermark and a day ago, for every log, exactly when the window covers it: it has a
      watermark, or no enabled category has, or the oldest one is at least a day old. */
  lemma V2PollCountsExactlyWhenCovered(cfg: Config, s: Core, c: string, oldest: Option<int>, at: Clock)
    requires c in Constants.ALL_CATEGORIES && c in s.lanes && s.lanes[c].cat.enabled && IsOldest(s.lanes, oldest)
    ensures WindowCovers(s.lanes[c].cat.clearedAt, oldest, at.wall) <==>
            forall log :: FitsOneFetch(log, oldest, at.wall)
                          ==> OpenCountAfter(cfg, s, c, oldest, at, log)
                              == CountWanted(cfg, c, s.lanes[c].cat.clearedAt, at.wall, log)
  {
    hide OpenCountAfter, CountWanted, Counted, IsOldest, Window;
    var mark := s.lanes[c].cat.clearedAt;
    Constants.CategoryLengths(c);
    if mark.Some? {
      OldestIsBelow(s.lanes, oldest, c);
    }
    if WindowCovers(mark, oldest, at.wall) {
      forall log | FitsOneFetch(log, oldest, at.wall)
        ensures OpenCountAfter(cfg, s, c, oldest, at, log) == CountWanted(cfg, c, mark, at.wall, log)
      {
        OpenCountIsCounted(cfg, s, c, oldest, at, log);
        CountedIsWanted(cfg, c, mark, oldest, at.wall, log);
      }
    } else {
      var log := MissedEvent(cfg, c, oldest, at.wall, None, at.wall - LOOKBACK);
      OpenCountIsCounted(cfg, s, c, oldest, at, log);
      NothingCounted(cfg, c, mark, at.wall);
      assert OpenCountAfter(cfg, s, c, oldest, at, log) != CountWanted(cfg, c, mark, at.wall, log);
    }
  }

  /** What can land while a poll is in flight, from the moment it reads the host clock: anything but
      another poll of the coordinator, at that time or later, pushes stamped on receipt. */
  predicate InFlight(es: seq<Event>, now: int) {
    forall e :: e in es ==>
      && e.at.wall >= now && !e.action.Poll?
      && (e.action.Push? ==> e.action.alert.receivedAt >= now)
  }

  /** No clear in flight can leave c a watermark before the window's start (or the present): it has
      a watermark, and its newest sighting, if this instance has one, is not older. One millisecond
      short is enough because the window includes its start. */
  predicate MarksReach(cat: Cat, reach: int) {
    cat.clearedAt.Some? && reach <= cat.clearedAt.value && (cat.newestSeen.Some? ==> reach <= cat.newestSeen.value)
  }

  predicate CoversInFlight(cat: Cat, oldest: Option<int>, now: int) {
    || oldest.None? || oldest.value <= now - LOOKBACK
    || (cat.clearedAt.Some? && (cat.newestSeen.Some? ==> Min(oldest.value - 1, now) <= cat.newestSeen.value))
  }

  lemma MarksReachStep(cfg: Config, s: Core, e: Event, c: string, now: int, reach: int)
    requires c in s.lanes && MarksReach(s.lanes[c].cat, reach) && reach <= now && InFlight([e], now)
    ensures MarksReach(Step(cfg, s, e).lanes[c].cat, reach)
  {
    hide Step, VerdictOf, MostRecent;
    assert e in [e];
    Acknowledgement.AckStep(cfg, s, e, c);
    Acknowledgement.NewestSeenStep(cfg, s, e, c);
  }

  lemma {:induction false} MarksReachRun(cfg: Config, s: Core, es: seq<Event>, c: string, now: int, reach: int)
    requires c in s.lanes && MarksReach(s.lanes[c].cat, reach) && reach <= now && InFlight(es, now)
    ensures MarksReach(Run(cfg, s, es).lanes[c].cat, reach)
  {
    hide Step, MarksReach;
    if es != [] {
      var pre, e := es[..|es| - 1], es[|es| - 1];
      MarksReachRun(cfg, s, pre, c, now, reach);
      MarksReachStep(cfg, Run(cfg, s, pre), e, c, now, reach);
    }
  }

  /** With pushes, clears and wake-ups landing between choosing the window and applying the poll,
      open_count is the same count taken against the watermark of the moment the poll is applied, for
      all such steps and every log, exactly when the window covers c in flight. */
  lemma V2PollInFlightExactly(cfg: Config, s: Core, c: string, oldest: Option<int>, at: Clock)
    requires c in Constants.ALL_CATEGORIES && c in s.lanes && s.lanes[c].cat.enabled && IsOldest(s.lanes, oldest)
    ensures CoversInFlight(s.lanes[c].cat, oldest, at.wall) <==>
            forall between, log :: InFlight(between, at.wall) && FitsOneFetch(log, oldest, at.wall) ==>
              OpenCountAfter(cfg, Run(cfg, s, between), c, oldest, at, log)
              == CountWanted(cfg, c, Run(cfg, s, between).lanes[c].cat.clearedAt, at.wall, log)
  {
    hide Run, OpenCountAfter, CountWanted, FitsOneFetch, CoversInFlight, IsOldest, InFlight;
    if CoversInFlight(s.lanes[c].cat, oldest, at.wall) {
      forall between, log | InFlight(between, at.wall) && FitsOneFetch(log, oldest, at.wall)
        ensures OpenCountAfter(cfg, Run(cfg, s, between), c, oldest, at, log)
             == CountWanted(cfg, c, Run(cfg, s, between).lanes[c].cat.clearedAt, at.wall, log)
      {
        CountedInFlight(cfg, s, between, c, oldest, at, log);
      }
    } else {
      var between, log := MissedInFlight(cfg, s, c, oldest, at);
      assert OpenCountAfter(cfg, Run(cfg, s, between), c, oldest, at, log)
          != CountWanted(cfg, c, Run(cfg, s, between).lanes[c].cat.clearedAt, at.wall, log);
    }
  }

  lemma CountedInFlight(cfg: Config, s: Core, between: seq<Event>, c: string, oldest: Option<int>, at: Clock,
                        log: seq<Record>)
    requires c in Constants.ALL_CATEGORIES && c in s.lanes && s.lanes[c].cat.enabled && IsOldest(s.lanes, oldest)
    requires InFlight(between, at.wall)
    requires FitsOneFetch(log, oldest, at.wall) && CoversInFlight(s.lanes[c].cat, oldest, at.wall)
    ensures var later := Run(cfg, s, between);
            OpenCountAfter(cfg, later, c, oldest, at, log)
            == CountWanted(cfg, c, later.lanes[c].cat.clearedAt, at.wall, log)
  {
    hide Run, OpenCountAfter, CountWanted, Counted, Window, InFlight, IsOldest;
    Constants.CategoryLengths(c);
    var later := Run(cfg, s, between);
    if oldest.Some? && oldest.value > at.wall - LOOKBACK {
      OldestIsBelow(s.lanes, oldest, c);
      MarksReachRun(cfg, s, between, c, at.wall, Min(oldest.value - 1, at.wall));
    }
    OpenCountIsCounted(cfg, later, c, oldest, at, log);
    CountedIsWanted(cfg, c, later.lanes[c].cat.clearedAt, oldest, at.wall, log);
  }

  /** At most one clear while the poll is in flight, and one event the chosen window then misses. */
  lemma MissedInFlight(cfg: Config, s: Core, c: string, oldest: Option<int>, at: Clock)
    returns (between: seq<Event>, log: seq<Record>)
    requires c in Constants.ALL_CATEGORIES && c in s.lanes && s.lanes[c].cat.enabled && IsOldest(s.lanes, oldest)
    requires !CoversInFlight(s.lanes[c].cat, oldest, at.wall)
    ensures InFlight(between, at.wall) && FitsOneFetch(log, oldest, at.wall)
    ensures OpenCountAfter(cfg, Run(cfg, s, between), c, oldest, at, log) == 0
    ensures CountWanted(cfg, c, Run(cfg, s, between).lanes[c].cat.clearedAt, at.wall, log) == 1
  {
    hide OpenCountAfter, CountWanted, Counted, Window, Step;
    Constants.CategoryLengths(c);
    var cat := s.lanes[c].cat;
    if cat.clearedAt.None? {
      between := [];
      log := MissedEvent(cfg, c, oldest, at.wall, None, at.wall - LOOKBACK);
    } else {
      var clear := Event(at, ClearOne(c));
      between := [clear];
      assert between[..0] == [];
      Acknowledgement.AckStep(cfg, s, clear, c);
      log := MissedEvent(cfg, c, oldest, at.wall, cat.newestSeen, Max(cat.newestSeen.value + 1, at.wall - LOOKBACK));
    }
    var later := Run(cfg, s, between);
    OpenCountIsCounted(cfg, later, c, oldest, at, log);
    NothingCounted(cfg, c, later.lanes[c].cat.clearedAt, at.wall);
  }

  /** One open event of unknown severity. */
  function OpenEvent(key: string, v2Enum: string, t: int): Record {
    Record(key, v2Enum, "NEW", Some(t), "", "", map[], "", "", "", "")
  }

  lemma OneEventCounts(cfg: Config, s: Core, c: string, oldest: Option<int>, at: Clock,
                       key: string, v2Enum: string, t: int)
    requires c in Constants.ALL_CATEGORIES && c in s.lanes && s.lanes[c].cat.enabled
    requires CategoryOf(OpenEvent(key, v2Enum, t)) == c
    ensures var from := WindowStart(Since(oldest, at.wall), at.wall);
            OpenCountAfter(cfg, s, c, oldest, at, [OpenEvent(key, v2Enum, t)])
            == if from <= t <= at.wall && (s.lanes[c].cat.clearedAt.Some? ==> t > s.lanes[c].cat.clearedAt.value)
               then 1 else 0
  {
    hide Constants.ResolveInTwoStages, OpenCountAfter, Counted, CategoryOf;
    Constants.CategoryLengths(c);
    var r, mark := OpenEvent(key, v2Enum, t), s.lanes[c].cat.clearedAt;
    var from := WindowStart(Since(oldest, at.wall), at.wall);
    assert RecordPasses(cfg, c, r) by {
      assert Severity.Normalize(r.severity) == Severity.UNKNOWN;
    }
    hide RecordPasses;
    assert [r][..0] == [];
    assert Window([r], from, at.wall) == if from <= t <= at.wall then [r] else [];
    hide Window, WindowStart, Since;
    NothingCounted(cfg, c, mark, at.wall);
    CountedGrows(cfg, c, mark, at.wall, [], r);
    assert [] + [r] == [r];
    OpenCountIsCounted(cfg, s, c, oldest, at, [r]);
  }

  /** The v2 window ends at the host's time, so a controller that is ahead answers a poll without the
      events of its last moments: one that counts when the clocks agree is not even fetched. */
  lemma AheadEventIsNotFetched(cfg: Config, s: Core, c: string, oldest: Option<int>, at: Clock, d: int)
    returns (key: string, v2Enum: string)
    requires c in Constants.ALL_CATEGORIES && c in s.lanes && s.lanes[c].cat.enabled && d > 0
    requires oldest.Some? ==> oldest.value <= at.wall
    requires s.lanes[c].cat.clearedAt.Some? ==> s.lanes[c].cat.clearedAt.value < at.wall
    ensures OpenCountAfter(cfg, s, c, oldest, at, [OpenEvent(key, v2Enum, at.wall)]) == 1
    ensures OpenCountAfter(cfg, s, c, oldest, at, [OpenEvent(key, v2Enum, at.wall + d)]) == 0
  {
    key, v2Enum := Constants.SomeEventOf(c);
    hide Constants.ResolveInTwoStages, OpenCountAfter;
    OneEventCounts(cfg, s, c, oldest, at, key, v2Enum, at.wall);
    OneEventCounts(cfg, s, c, oldest, at, key, v2Enum, at.wall + d);
  }

  // ---- what a legacy poll counts ----

  /** An unarchived alarm of c, at or above its minimum, newer than its watermark; one without a
      timestamp has the time of the poll. */
  predicate WantedAlarm(cfg: Config, c: string, mark: Option<int>, now: int, r: Alarm) {
    && !r.archived && Constants.ClassifyEventKey(r.key, "") == c && Passes(cfg, c, AlertOfAlarm(c, r, now))
    && (mark.None? || (if r.at.Some? then r.at.value else now) > mark.value)
  }

  function CountWantedAlarms(cfg: Config, c: string, mark: Option<int>, now: int, xs: seq<Alarm>): nat {
    if xs == [] then 0
    else
      CountWantedAlarms(cfg, c, mark, now, xs[..|xs| - 1])
      + if WantedAlarm(cfg, c, mark, now, xs[|xs| - 1]) then 1 else 0
  }

  /** What the poll's own pipeline keeps of an alarm list for c. */
  function CountedAlarms(cfg: Config, c: string, mark: Option<int>, now: int, xs: seq<Alarm>): seq<Alert> {
    Unacknowledged(mark, Eligible(cfg, c, OfCategory(ItemsOfAlarms(Unarchived(xs), now), c)))
  }

  lemma OneMoreAlarm(c: string, now: int, xs: seq<Alarm>, r: Alarm)
    ensures var x := ItemOfAlarm(r, now);
            OfCategory(ItemsOfAlarms(Unarchived(xs + [r]), now), c)
            == OfCategory(ItemsOfAlarms(Unarchived(xs), now), c)
               + if !r.archived && x.alert.category == c then [x.alert] else []
  {
    hide ItemOfAlarm;
    assert (xs + [r])[..|xs|] == xs;
    var kept := Unarchived(xs);
    assert (kept + [r])[..|kept|] == kept && kept + [] == kept;
    var items, x := ItemsOfAlarms(kept, now), ItemOfAlarm(r, now);
    assert (items + [x])[..|items|] == items;
    assert OfCategory(items, c) + [] == OfCategory(items, c);
  }

  lemma CountedAlarmsGrow(cfg: Config, c: string, mark: Option<int>, now: int, xs: seq<Alarm>, r: Alarm)
    requires c != ""
    ensures |CountedAlarms(cfg, c, mark, now, xs + [r])|
         == |CountedAlarms(cfg, c, mark, now, xs)| + if WantedAlarm(cfg, c, mark, now, r) then 1 else 0
  {
    hide Passes, Constants.ClassifyEventKey, Eligible, Unacknowledged, OfCategory, ItemsOfAlarms, Unarchived;
    var a := ItemOfAlarm(r, now).alert;
    OneMoreAlarm(c, now, xs, r);
    OneMoreCounted(cfg, c, mark, OfCategory(ItemsOfAlarms(Unarchived(xs), now), c),
                   if !r.archived && a.category == c then [a] else []);
  }

  lemma NoAlarms(cfg: Config, c: string, mark: Option<int>, now: int)
    ensures CountedAlarms(cfg, c, mark, now, []) == []
  {
  }

  lemma {:induction false} CountedAlarmsAreWanted(cfg: Config, c: string, mark: Option<int>, now: int, xs: seq<Alarm>)
    requires c != ""
    ensures |CountedAlarms(cfg, c, mark, now, xs)| == CountWantedAlarms(cfg, c, mark, now, xs)
  {
    hide CountedAlarms, WantedAlarm;
    NoAlarms(cfg, c, mark, now);
    if xs != [] {
      CountedAlarmsAreWanted(cfg, c, mark, now, xs[..|xs| - 1]);
      CountedAlarmsGrow(cfg, c, mark, now, xs[..|xs| - 1], xs[|xs| - 1]);
      assert xs == xs[..|xs| - 1] + [xs[|xs| - 1]];
    }
  }

  /** A successful fetch answers with the unarchived alarms one of the site's paths holds. */
  lemma {:induction false} DiscoveredAlarms(m: Memory, paths: seq<string>, site: string, server: Server, tick: nat)
    requires DiscoverFrom(m, paths, site, server, tick).result.Ok?
    ensures exists i: nat, xs :: i < |paths| && server(paths[i], tick + i) == Alarms(xs)
                                 && DiscoverFrom(m, paths, site, server, tick).result == Ok(Unarchived(xs))
  {
    hide Unarchived, Candidates;
    if server(paths[0], tick).Missing? {
      DiscoveredAlarms(m, paths[1..], site, server, tick + 1);
      var i: nat, xs :| i < |paths[1..]| && server(paths[1..][i], tick + 1 + i) == Alarms(xs)
        && DiscoverFrom(m, paths[1..], site, server, tick + 1).result == Ok(Unarchived(xs));
      assert server(paths[i + 1], tick + (i + 1)) == Alarms(xs);
    } else {
      assert server(paths[0], tick + 0) == Alarms(server(paths[0], tick).alarms);
    }
  }

  lemma FetchedAlarms(m: Memory, base: string, site: string, server: Server)
    returns (url: string, tick: nat, xs: seq<Alarm>)
    requires Remembers(m, base) && FetchAlarms(m, base, site, server).result.Ok?
    ensures url in Candidates(base, site) && server(url, tick) == Alarms(xs)
    ensures FetchAlarms(m, base, site, server).result == Ok(Unarchived(xs))
  {
    hide Unarchived, DiscoverFrom;
    var paths := Candidates(base, site);
    if site in m.urls && server(m.urls[site], 0).Alarms? {
      url, tick, xs := m.urls[site], 0, server(m.urls[site], 0).alarms;
    } else {
      var n, from: nat := if site in m.urls then Forget(m, site) else m, if site in m.urls then 1 else 0;
      DiscoveredAlarms(n, paths, site, server, from);
      var i: nat, ys :| i < |paths| && server(paths[i], from + i) == Alarms(ys)
        && DiscoverFrom(n, paths, site, server, from).result == Ok(Unarchived(ys));
      url, tick, xs := paths[i], from + i, ys;
    }
  }

  /** A legacy poll end to end: when a poll gathers over the legacy path, one of the site's three paths
      answered with a list of alarms, and applying the poll gives each enabled category the number of
      unarchived alarms of it in that list, at or above its minimum and newer than its watermark. */
  lemma LegacyPollCountsExactly(cfg: Config, s: Core, c: string, src: Source, base: string, site: string, k: Controller,
                                oldest: Option<int>, at: Clock) returns (url: string, tick: nat, xs: seq<Alarm>)
    requires c in Constants.ALL_CATEGORIES && c in s.lanes && s.lanes[c].cat.enabled && Remembers(src.memory, base)
    ensures var g := Gather(src, base, site, oldest, k, at.wall);
            g.found.Ok? && g.v2Requests == 0 ==>
              && url in Candidates(base, site) && k.legacy(url, tick) == Alarms(xs)
              && Step(cfg, s, Event(at, Poll(g.found.value))).lanes[c].cat.openCount
                 == CountWantedAlarms(cfg, c, s.lanes[c].cat.clearedAt, at.wall, xs)
  {
    hide PagesFrom, Categorised, ItemsOf, ItemsOfAlarms, UnclassifiedKeys, Tally, FetchAlarms, Unarchived, Candidates,
      Remembers, Step, CountWantedAlarms, OfCategory, Eligible, Unacknowledged;
    Constants.CategoryLengths(c);
    RequestsAreBounded(k.v2(WindowStart(Since(oldest, at.wall), at.wall), at.wall), 0);
    var g := Gather(src, base, site, oldest, k, at.wall);
    url, tick, xs := "", 0, [];
    if g.found.Ok? && g.v2Requests == 0 {
      url, tick, xs := FetchedAlarms(src.memory, base, site, k.legacy);
      var items := ItemsOfAlarms(Unarchived(xs), at.wall);
      assert g.found.value == Categorised(items);
      CategorisedIsExact(items, c);
      PolledCount(cfg, s, c, at, Categorised(items));
      CountedAlarmsAreWanted(cfg, c, s.lanes[c].cat.clearedAt, at.wall, xs);
    }
  }

  lemma PolledCount(cfg: Config, s: Core, c: string, at: Clock, found: map<string, seq<Alert>>)
    requires c in s.lanes && s.lanes[c].cat.enabled
    ensures Step(cfg, s, Event(at, Poll(found))).lanes[c].cat.openCount
         == |Unacknowledged(s.lanes[c].cat.clearedAt, Eligible(cfg, c, Get(found, c, [])))|
  {
    EmptyCounts(cfg, c, s.lanes[c].cat.clearedAt);
    hide Eligible, Unacknowledged, MostRecent, NewestSeen, Scheduled;
  }

  /** The two situations the design has in mind are covered: all enabled categories have a
      watermark, or none has. */
  lemma AllOrNoneIsCovered(s: Core, c: string, oldest: Option<int>, now: int)
    requires c in s.lanes && s.lanes[c].cat.enabled && IsOldest(s.lanes, oldest)
    requires || (forall d :: d in s.lanes && s.lanes[d].cat.enabled ==> Marked(s.lanes, d))
             || (forall d :: d in s.lanes ==> !Marked(s.lanes, d))
    ensures WindowCovers(s.lanes[c].cat.clearedAt, oldest, now)
  {
  }
}
