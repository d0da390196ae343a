/** unifi_client.py: legacy endpoint discovery with its per-site cache, and both alarm fetches. */
module Client {
  import opened Wrappers
  import opened Models
  import opened SystemLog
  import Constants
  import Persistence

  /** The fields of a legacy alarm record; an absent text is "". */
  datatype Alarm = Alarm(key: string, msg: string, message: string, at: Option<int>, deviceName: string, apName: string,
                         siteName: string, severity: string, subsystem: string, archived: bool)

  /** What the controller answers at one path: no such path (404, or 400 api.err.InvalidObject), the
      alarm list, or an error. */
  datatype Reply = Missing | Alarms(alarms: seq<Alarm>) | Refused(error: Failure)

  /** The controller during one fetch: the answer at a URL after so many requests. */
  type Server = (string, nat) -> Reply

  datatype FetchError = Http(error: Failure) | AlarmEndpointUnavailable

  function Unarchived(xs: seq<Alarm>): seq<Alarm> {
    if xs == [] then [] else Unarchived(xs[..|xs| - 1]) + if xs[|xs| - 1].archived then [] else [xs[|xs| - 1]]
  }

  function Candidates(base: string, site: string): seq<string> {
    var root := base + "/proxy/network/api/s/" + site;
    [root + "/list/alarm", root + "/alarm", root + "/stat/alarm"]
  }

  /** What the client remembers between polls. */
  datatype Memory = Memory(urls: map<string, string>, gone: set<string>)

  datatype Answer = Answer(memory: Memory, result: Result<seq<Alarm>, FetchError>, requests: nat)

  /** Probing these paths in order, `tick` requests already sent. */
  function DiscoverFrom(m: Memory, paths: seq<string>, site: string, server: Server, tick: nat): Answer {
    if paths == [] then Answer(m.(gone := m.gone + {site}), Err(AlarmEndpointUnavailable), 0)
    else
      match server(paths[0], tick)
      case Missing =>
        var r := DiscoverFrom(m, paths[1..], site, server, tick + 1);
        r.(requests := r.requests + 1)
      case Alarms(xs) => Answer(m.(urls := m.urls[site := paths[0]]), Ok(Unarchived(xs)), 1)
      case Refused(e) => Answer(m, Err(Http(e)), 1)
  }

  function Discover(m: Memory, base: string, site: string, server: Server, tick: nat): Answer {
    DiscoverFrom(m, Candidates(base, site), site, server, tick)
  }

  function Forget(m: Memory, site: string): Memory {
    m.(urls := m.urls - {site})
  }

  function FetchAlarms(m: Memory, base: string, site: string, server: Server): Answer {
    if site !in m.urls then Discover(m, base, site, server, 0)
    else
      match server(m.urls[site], 0)
      case Missing =>
        var r := Discover(Forget(m, site), base, site, server, 1);
        r.(requests := r.requests + 1)
      case Alarms(xs) => Answer(m, Ok(Unarchived(xs)), 1)
      case Refused(e) => Answer(m, Err(Http(e)), 1)
  }

  // ---- the cache over any sequence of fetches ----

  /** Every cached URL is one of its site's three candidates. */
  predicate Remembers(m: Memory, base: string) {
    forall site :: site in m.urls ==> m.urls[site] in Candidates(base, site)
  }

  /** Every answer this server gives these paths, from this request on, is "no such path". */
  predicate AllMissing(paths: seq<string>, server: Server, tick: nat) {
    forall i :: 0 <= i < |paths| ==> server(paths[i], tick + i).Missing?
  }

  lemma {:induction false} DiscoverFromShape(m: Memory, paths: seq<string>, site: string, server: Server, tick: nat)
    ensures var r := DiscoverFrom(m, paths, site, server, tick);
            && r.requests <= |paths|
            && (r.result == Err(AlarmEndpointUnavailable) <==> AllMissing(paths, server, tick))
            && r.memory.gone == m.gone + (if r.result == Err(AlarmEndpointUnavailable) then {site} else {})
            && (r.result.Err? ==> r.memory.urls == m.urls)
            && (r.result.Ok? ==> exists i :: 0 <= i < |paths| && r.memory.urls == m.urls[site := paths[i]])
  {
    if paths != [] {
      DiscoverFromShape(m, paths[1..], site, server, tick + 1);
      var r := DiscoverFrom(m, paths, site, server, tick);
      if server(paths[0], tick).Missing? {
        var rest := DiscoverFrom(m, paths[1..], site, server, tick + 1);
        if rest.result.Ok? {
          var i :| 0 <= i < |paths[1..]| && rest.memory.urls == m.urls[site := paths[1..][i]];
          assert r.memory.urls == m.urls[site := paths[i + 1]];
        }
        if AllMissing(paths, server, tick) {
          forall i | 0 <= i < |paths[1..]| ensures server(paths[1..][i], tick + 1 + i).Missing? {
            assert server(paths[i + 1], tick + (i + 1)).Missing?;
          }
        }
        if AllMissing(paths[1..], server, tick + 1) {
          forall i | 0 <= i < |paths| ensures server(paths[i], tick + i).Missing? {
            if i > 0 {
              assert server(paths[1..][i - 1], tick + 1 + (i - 1)).Missing?;
            }
          }
        }
      } else {
        assert !server(paths[0], tick + 0).Missing?;
        assert server(paths[0], tick).Alarms? ==> r.memory.urls == m.urls[site := paths[0]];
      }
    }
  }

  lemma AsksOnce(m: Memory, paths: seq<string>, site: string, server: Server, tick: nat)
    requires paths != []
    ensures DiscoverFrom(m, paths, site, server, tick).requests >= 1
  {
    hide Unarchived;
  }

  /** One fetch: at most four requests; the cache keeps only candidates; the unavailable flag is
      never unset and is set exactly when every path that was tried is missing, which leaves no
      cache entry. */
  lemma FetchKeepsTheCacheSound(m: Memory, base: string, site: string, server: Server)
    requires Remembers(m, base)
    ensures var r := FetchAlarms(m, base, site, server);
            && Remembers(r.memory, base)
            && 1 <= r.requests <= 4
            && m.gone <= r.memory.gone <= m.gone + {site}
            && (r.result == Err(AlarmEndpointUnavailable) ==> site in r.memory.gone && site !in r.memory.urls)
            && (r.result == Err(AlarmEndpointUnavailable) <==>
                  if site in m.urls
                  then server(m.urls[site], 0).Missing? && AllMissing(Candidates(base, site), server, 1)
                  else AllMissing(Candidates(base, site), server, 0))
            && (r.result != Err(AlarmEndpointUnavailable) ==> r.memory.gone == m.gone)
            && (site in m.urls && !server(m.urls[site], 0).Missing? ==> r.memory == m && r.requests == 1)
            && (r.result.Ok? ==> site in r.memory.urls)
            && (forall other :: other != site ==> (other in r.memory.urls <==> other in m.urls))
            && (forall other :: other != site && other in m.urls ==> r.memory.urls[other] == m.urls[other])
  {
    hide Unarchived, DiscoverFrom, AllMissing;
    var paths := Candidates(base, site);
    AsksOnce(m, paths, site, server, 0);
    AsksOnce(Forget(m, site), paths, site, server, 1);
    DiscoverFromShape(m, paths, site, server, 0);
    DiscoverFromShape(Forget(m, site), paths, site, server, 1);
  }

  // ---- a cached fetch against fresh discovery ----

  /** The server answers the same all through a fetch. */
  ghost predicate Steady(server: Server) {
    forall u: string, i: nat :: server(u, i) == server(u, 0)
  }

  ghost predicate SamePaths(a: Server, b: Server) {
    forall u: string :: a(u, 0).Missing? <==> b(u, 0).Missing?
  }

  /** The cached URL, if any, is what discovery would settle on. */
  ghost predicate Current(m: Memory, base: string, site: string, server: Server) {
    site in m.urls ==>
      exists i :: 0 <= i < 3 && m.urls[site] == Candidates(base, site)[i] && !server(m.urls[site], 0).Missing?
                  && forall j :: 0 <= j < i ==> server(Candidates(base, site)[j], 0).Missing?
  }

  lemma {:induction false} DiscoveryFindsFirst(m: Memory, paths: seq<string>, site: string, server: Server, tick: nat,
                                               i: nat)
    requires Steady(server) && i < |paths| && !server(paths[i], 0).Missing?
    requires forall j :: 0 <= j < i ==> server(paths[j], 0).Missing?
    ensures DiscoverFrom(m, paths, site, server, tick).result ==
            match server(paths[i], 0) {
              case Alarms(xs) => Ok(Unarchived(xs))
              case Refused(e) => Err(Http(e))
              case Missing => Err(AlarmEndpointUnavailable)
            }
    ensures server(paths[i], 0).Alarms? ==>
            DiscoverFrom(m, paths, site, server, tick).memory.urls == m.urls[site := paths[i]]
    ensures server(paths[i], 0).Refused? ==> DiscoverFrom(m, paths, site, server, tick).memory.urls == m.urls
  {
    if i > 0 {
      assert server(paths[0], tick) == server(paths[0], 0);
      DiscoveryFindsFirst(m, paths[1..], site, server, tick + 1, i - 1);
    } else {
      assert server(paths[0], tick) == server(paths[0], 0);
    }
  }

  lemma FetchIsFreshDiscovery(m: Memory, base: string, site: string, server: Server)
    requires Steady(server) && Current(m, base, site, server)
    ensures FetchAlarms(m, base, site, server).result == Discover(Forget(m, site), base, site, server, 0).result
    ensures Current(FetchAlarms(m, base, site, server).memory, base, site, server)
  {
    var paths := Candidates(base, site);
    if site in m.urls {
      var i :| 0 <= i < 3 && m.urls[site] == paths[i] && !server(m.urls[site], 0).Missing?
        && forall j :: 0 <= j < i ==> server(paths[j], 0).Missing?;
      DiscoveryFindsFirst(Forget(m, site), paths, site, server, 0, i);
    } else {
      assert Forget(m, site) == m;
      DiscoverFromShape(m, paths, site, server, 0);
      if !AllMissing(paths, server, 0) {
        var i := FirstPresent(paths, server);
        DiscoveryFindsFirst(m, paths, site, server, 0, i);
      }
    }
  }

  /** Discovery takes the newest path that exists: list/alarm, then alarm, then stat/alarm. */
  lemma NewestPathFirst(m: Memory, base: string, site: string, server: Server)
    requires Steady(server) && site !in m.urls
    ensures var root := base + "/proxy/network/api/s/" + site;
            var list, plain := server(root + "/list/alarm", 0), server(root + "/alarm", 0);
            var stat := server(root + "/stat/alarm", 0);
            var result := FetchAlarms(m, base, site, server).result;
            && (list.Alarms? ==> result == Ok(Unarchived(list.alarms)))
            && (list.Refused? ==> result == Err(Http(list.error)))
            && (list.Missing? && plain.Alarms? ==> result == Ok(Unarchived(plain.alarms)))
            && (list.Missing? && plain.Refused? ==> result == Err(Http(plain.error)))
            && (list.Missing? && plain.Missing? && stat.Alarms? ==> result == Ok(Unarchived(stat.alarms)))
            && (list.Missing? && plain.Missing? && stat.Refused? ==> result == Err(Http(stat.error)))
            && (list.Missing? && plain.Missing? && stat.Missing? ==> result == Err(AlarmEndpointUnavailable))
  {
    hide Unarchived, DiscoverFrom;
    var root := base + "/proxy/network/api/s/" + site;
    var paths := Candidates(base, site);
    assert paths == [root + "/list/alarm", root + "/alarm", root + "/stat/alarm"];
    DiscoverFromShape(m, paths, site, server, 0);
    if !server(paths[0], 0).Missing? {
      DiscoveryFindsFirst(m, paths, site, server, 0, 0);
    } else if !server(paths[1], 0).Missing? {
      DiscoveryFindsFirst(m, paths, site, server, 0, 1);
    } else if !server(paths[2], 0).Missing? {
      DiscoveryFindsFirst(m, paths, site, server, 0, 2);
    } else {
      assert forall i: nat :: i < 3 ==> server(paths[i], 0 + i) == server(paths[i], 0);
    }
  }

  lemma FirstPresent(paths: seq<string>, server: Server) returns (i: nat)
    requires Steady(server) && !AllMissing(paths, server, 0)
    ensures i < |paths| && !server(paths[i], 0).Missing? && forall j :: 0 <= j < i ==> server(paths[j], 0).Missing?
  {
    i := 0;
    while i < |paths| && server(paths[i], 0).Missing?
      invariant i <= |paths|
      invariant forall j :: 0 <= j < i ==> server(paths[j], 0).Missing?
    {
      i := i + 1;
    }
    assert forall j :: 0 <= j < |paths| ==> server(paths[j], 0 + j) == server(paths[j], 0);
  }

  function Remembered(m: Memory, base: string, site: string, servers: seq<Server>): Memory {
    if servers == [] then m
    else FetchAlarms(Remembered(m, base, site, servers[..|servers| - 1]), base, site, servers[|servers| - 1]).memory
  }

  /** While the set of paths the controller serves does not change, every fetch of a run returns
      what fresh discovery would, however the alarms themselves change. */
  lemma {:induction false} CacheIsInvisible(m: Memory, base: string, site: string, servers: seq<Server>, now: Server)
    requires site !in m.urls && Steady(now)
    requires forall i :: 0 <= i < |servers| ==> Steady(servers[i]) && SamePaths(servers[i], now)
    ensures Current(Remembered(m, base, site, servers), base, site, now)
    ensures var kept := Remembered(m, base, site, servers);
            FetchAlarms(kept, base, site, now).result == Discover(Forget(kept, site), base, site, now, 0).result
  {
    if servers != [] {
      var last := servers[|servers| - 1];
      assert forall i :: 0 <= i < |servers| - 1 ==> SamePaths(servers[i], last);
      CacheIsInvisible(m, base, site, servers[..|servers| - 1], last);
      FetchIsFreshDiscovery(Remembered(m, base, site, servers[..|servers| - 1]), base, site, last);
      CurrentCarriesOver(Remembered(m, base, site, servers), base, site, last, now);
    }
    FetchIsFreshDiscovery(Remembered(m, base, site, servers), base, site, now);
  }

  lemma CurrentCarriesOver(m: Memory, base: string, site: string, a: Server, b: Server)
    requires SamePaths(a, b) && Current(m, base, site, a)
    ensures Current(m, base, site, b)
  {
    if site in m.urls {
      var i :| 0 <= i < 3 && m.urls[site] == Candidates(base, site)[i] && !a(m.urls[site], 0).Missing?
        && forall j :: 0 <= j < i ==> a(Candidates(base, site)[j], 0).Missing?;
      assert !b(m.urls[site], 0).Missing?;
    }
  }

  // ---- legacy alarms into categories ----

  function AlertOfAlarm(category: string, r: Alarm, now: int): (a: Alert)
    ensures Persistence.Clipped(a) && |a.key| <= 64 && |a.message| <= 255 && |a.deviceName| <= 255
    ensures a.key <= r.key && (r.deviceName != "" ==> a.deviceName <= r.deviceName)
            && (r.msg != "" ==> a.message <= r.msg)
    ensures a.category == category && a.receivedAt == (if r.at.Some? then r.at.value else now)
    ensures a.message != "" && a.site == r.siteName
  {
    Alert(category, Persistence.Clip(Or(r.msg, Or(r.message, Or(r.key, "Unknown alert"))), 255),
          if r.at.Some? then r.at.value else now, NO_RAW, Persistence.Clip(r.key, 64),
          Persistence.Clip(Or(r.deviceName, r.apName), 255), r.siteName,
          Persistence.Clip(Or(r.severity, r.subsystem), Persistence.SEVERITY_LIMIT))
  }

  /** Where each text of an alert comes from: msg, else message, else the key, else a fixed text; the
      device's name, else the access point's; the severity, else the subsystem; each cut to its length. */
  lemma AlarmTexts(category: string, r: Alarm, now: int)
    ensures var a := AlertOfAlarm(category, r, now);
            && Cut(a.key, r.key, 64)
            && (r.msg != "" ==> Cut(a.message, r.msg, 255))
            && (r.msg == "" && r.message != "" ==> Cut(a.message, r.message, 255))
            && (r.msg == r.message == "" && r.key != "" ==> Cut(a.message, r.key, 255))
            && (r.msg == r.message == r.key == "" ==> a.message == "Unknown alert")
            && Cut(a.deviceName, if r.deviceName != "" then r.deviceName else r.apName, 255)
            && Cut(a.severity, if r.severity != "" then r.severity else r.subsystem, 32)
  {
    assert |"Unknown alert"| == 13;
  }

  function ItemOfAlarm(r: Alarm, now: int): Item {
    Item(r.key, AlertOfAlarm(Constants.ClassifyEventKey(r.key, ""), r, now))
  }

  function ItemsOfAlarms(xs: seq<Alarm>, now: int): (r: seq<Item>)
    ensures |r| == |xs|
  {
    if xs == [] then [] else ItemsOfAlarms(xs[..|xs| - 1], now) + [ItemOfAlarm(xs[|xs| - 1], now)]
  }

  lemma NothingSorted()
    ensures Categorised([]) == map[] && Tally(map[], UnclassifiedKeys([])) == map[]
  {
  }

  // ---- the client object ----

  class UniFiClient {
    const base: string
    var alarmUrlCache: map<string, string>
    var legacyConfirmedUnavailable: set<string>
    /** Unclassified keys of the most recent categorise_alarms call. */
    var unrecognisedKeys: map<string, int>

    function View(): Memory
      reads this
    {
      Memory(alarmUrlCache, legacyConfirmedUnavailable)
    }

    constructor (base: string)
      ensures this.base == base && View() == Memory(map[], {}) && unrecognisedKeys == map[]
    {
      this.base := base;
      alarmUrlCache, legacyConfirmedUnavailable, unrecognisedKeys := map[], {}, map[];
    }

    method DiscoverAlarmUrl(site: string, server: Server, tick: nat)
      returns (result: Result<seq<Alarm>, FetchError>, requests: nat)
      modifies this`alarmUrlCache, this`legacyConfirmedUnavailable
      ensures Answer(View(), result, requests) == Discover(old(View()), base, site, server, tick)
    {
      var paths := Candidates(base, site);
      ghost var whole := Discover(View(), base, site, server, tick);
      for i := 0 to |paths|
        invariant View() == old(View())
        invariant var rest := DiscoverFrom(View(), paths[i..], site, server, tick + i);
                  rest.(requests := rest.requests + i) == whole
      {
        assert paths[i..][1..] == paths[i + 1..];
        match server(paths[i], tick + i) {
          case Missing =>
          case Alarms(xs) =>
            alarmUrlCache := alarmUrlCache[site := paths[i]];
            return Ok(Unarchived(xs)), i + 1;
          case Refused(e) =>
            return Err(Http(e)), i + 1;
        }
      }
      assert paths[|paths|..] == [];
      legacyConfirmedUnavailable := legacyConfirmedUnavailable + {site};
      return Err(AlarmEndpointUnavailable), |paths|;
    }

    method FetchAlarmsOf(site: string, server: Server) returns (result: Result<seq<Alarm>, FetchError>, requests: nat)
      modifies this`alarmUrlCache, this`legacyConfirmedUnavailable
      ensures Answer(View(), result, requests) == FetchAlarms(old(View()), base, site, server)
    {
      var sent := 0;
      if site in alarmUrlCache {
        match server(alarmUrlCache[site], 0) {
          case Missing =>
            alarmUrlCache := alarmUrlCache - {site};
            sent := 1;
          case Alarms(xs) =>
            return Ok(Unarchived(xs)), 1;
          case Refused(e) =>
            return Err(Http(e)), 1;
        }
      }
      result, requests := DiscoverAlarmUrl(site, server, sent);
      requests := requests + sent;
    }

    method SortAlarms(xs: seq<Alarm>, now: int) returns (result: map<string, seq<Alert>>)
      modifies this`unrecognisedKeys
      ensures result == Categorised(ItemsOfAlarms(xs, now))
      ensures unrecognisedKeys == Tally(map[], UnclassifiedKeys(ItemsOfAlarms(xs, now)))
    {
      hide Constants.ClassifyEventKey, Categorised, UnclassifiedKeys, Tally;
      unrecognisedKeys, result := map[], map[];
      NothingSorted();
      for i := 0 to |xs|
        invariant result == Categorised(ItemsOfAlarms(xs[..i], now))
        invariant unrecognisedKeys == Tally(map[], UnclassifiedKeys(ItemsOfAlarms(xs[..i], now)))
      {
        assert xs[..i + 1][..i] == xs[..i];
        OneMoreItem(ItemsOfAlarms(xs[..i], now), ItemOfAlarm(xs[i], now), map[]);
        var category := Constants.ClassifyEventKey(xs[i].key, "");
        if category == "" {
          if xs[i].key != "" {
            unrecognisedKeys := unrecognisedKeys[xs[i].key := Get(unrecognisedKeys, xs[i].key, 0) + 1];
          }
        } else {
          var alert := AlertOfAlarm(category, xs[i], now);
          result := result[category := Get(result, category, []) + [alert]];
        }
      }
      assert xs[..|xs|] == xs;
    }

    /** categorise_alarms: on success the per-call tally is replaced. */
    method CategoriseAlarms(site: string, server: Server, now: int)
      returns (found: Result<map<string, seq<Alert>>, FetchError>, requests: nat)
      modifies this
      ensures var a := FetchAlarms(old(View()), base, site, server);
              && View() == a.memory && requests == a.requests
              && (a.result.Ok? ==> found == Ok(Categorised(ItemsOfAlarms(a.result.value, now)))
                                   && unrecognisedKeys
                                      == Tally(map[], UnclassifiedKeys(ItemsOfAlarms(a.result.value, now))))
              && (a.result.Err? ==> found == Err(a.result.error) && unrecognisedKeys == old(unrecognisedKeys))
    {
      hide FetchAlarms, Categorised, UnclassifiedKeys, Tally;
      var raw: Result<seq<Alarm>, FetchError>;
      raw, requests := FetchAlarmsOf(site, server);
      if raw.Err? {
        return Err(raw.error), requests;
      }
      var result := SortAlarms(raw.value, now);
      found := Ok(result);
    }

    /** fetch_system_log_alarms: the page loop over one window of the controller's log. */
    method FetchSystemLogAlarms(controller: (int, int) -> Pages, since: Option<int>, now: int) returns (fetch: Fetch)
      ensures fetch == PagesFrom(controller(WindowStart(since, now), now), 0)
    {
      var from := if since.Some? then since.value else now - LOOKBACK;
      var pages := controller(from, now);
      var results: seq<Record> := [];
      hide PagesFrom, IsLastPage, NewOnly, Continued;
      ResumedStep(pages, [], 0);
      for page := 0 to MAX_SYSTEM_LOG_PAGES
        invariant PagesFrom(pages, 0) == Continued(results, page, PagesFrom(pages, page))
      {
        ResumedStep(pages, results, page);
        var data := pages(page);
        if data.PageFailed? {
          return FetchFailed(data.error, page + 1);
        }
        var newEvents := NewOnly(data.events);
        results := results + newEvents;
        if IsLastPage(page, data) {
          return Fetched(results, page + 1, false);
        }
      }
      ResumedStep(pages, results, MAX_SYSTEM_LOG_PAGES);
      return Fetched(results, MAX_SYSTEM_LOG_PAGES, true);
    }
  }

  /** DEFAULT_SYSTEM_LOG_LOOKBACK_HOURS, in milliseconds. */
  const LOOKBACK: int := 24 * 60 * 60 * 1000

  function WindowStart(since: Option<int>, now: int): int {
    if since.Some? then since.value else now - LOOKBACK
  }
}
