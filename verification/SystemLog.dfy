/** v2 system-log events: turning records into alerts, and the paged fetch. */
module SystemLog {
  import opened Wrappers
  import opened Models
  import Constants
  import Persistence
  import Templates

  const SYSTEM_LOG_PAGE_SIZE: nat := 100
  const MAX_SYSTEM_LOG_PAGES: nat := 10

  /** The fields of a v2 record; an absent or null text is "". */
  datatype Record = Record(key: string, v2Category: string, status: string, timestamp: Option<int>, messageRaw: string,
                           titleRaw: string, parameters: map<string, Templates.Param>, deviceName: string,
                           siteName: string, site: string, severity: string)

  function Or(a: string, b: string): string {
    if a != "" then a else b
  }

  function MessageOf(r: Record): string {
    if r.messageRaw != "" then Templates.RenderMessageRaw(r.messageRaw, r.parameters)
    else Or(r.titleRaw, Or(r.key, "Unknown alert"))
  }

  function CategoryOf(r: Record): string {
    Constants.ResolveInTwoStages(r.key, r.v2Category)
  }

  function AlertOf(r: Record, now: int): (a: Alert)
    ensures Persistence.Clipped(a) && |a.key| <= 64 && |a.message| <= 255 && |a.deviceName| <= 255
    ensures a.message <= MessageOf(r) && a.key <= r.key && a.deviceName <= r.deviceName && a.severity <= r.severity
    ensures a.category == CategoryOf(r) && a.receivedAt == (if r.timestamp.Some? then r.timestamp.value else now)
    ensures (r.siteName != "" ==> a.site == r.siteName) && (r.siteName == "" ==> a.site == r.site)
  {
    Alert(CategoryOf(r), Persistence.Clip(MessageOf(r), 255),
          if r.timestamp.Some? then r.timestamp.value else now, NO_RAW,
          Persistence.Clip(r.key, 64), Persistence.Clip(r.deviceName, 255), Or(r.siteName, r.site),
          Persistence.Clip(r.severity, Persistence.SEVERITY_LIMIT))
  }

  /** t is s cut to n characters. */
  predicate Cut(t: string, s: string, n: nat) {
    t <= s && |t| == if |s| <= n then |s| else n
  }

  /** Where each text of an alert comes from: the rendered template if there is one, else the title, else
      the key, else a fixed text; each cut to its length. */
  lemma RecordTexts(r: Record, now: int)
    ensures var a := AlertOf(r, now);
            && Cut(a.key, r.key, 64) && Cut(a.deviceName, r.deviceName, 255) && Cut(a.severity, r.severity, 32)
            && (r.messageRaw != "" ==> Cut(a.message, Templates.RenderMessageRaw(r.messageRaw, r.parameters), 255))
            && (r.messageRaw == "" && r.titleRaw != "" ==> Cut(a.message, r.titleRaw, 255))
            && (r.messageRaw == r.titleRaw == "" && r.key != "" ==> Cut(a.message, r.key, 255))
            && (r.messageRaw == r.titleRaw == r.key == "" ==> a.message == "Unknown alert")
  {
    hide Templates.RenderMessageRaw, CategoryOf;
    assert |"Unknown alert"| == 13;
  }

  // ---- the paged fetch ----

  datatype Failure = CannotConnect | InvalidAuth | InvalidSite

  /** One response of system-log/all; total_page_count may be absent. */
  datatype Page = Page(events: seq<Record>, totalPages: Option<int>) | PageFailed(error: Failure)

  /** What the controller answers for each page number of one window. */
  type Pages = nat -> Page

  function NewOnly(rs: seq<Record>): seq<Record> {
    if rs == [] then [] else NewOnly(rs[..|rs| - 1]) + if rs[|rs| - 1].status == "NEW" then [rs[|rs| - 1]] else []
  }

  /** events fetched, requests issued, and whether the page-cap warning is logged. */
  datatype Fetch = Fetched(events: seq<Record>, requests: nat, capped: bool)
      | FetchFailed(error: Failure, requests: nat)

  predicate IsLastPage(page: nat, p: Page)
    requires p.Page?
  {
    page + 1 >= (if p.totalPages.Some? then p.totalPages.value else 1) || p.events == []
  }

  function PagesFrom(pages: Pages, page: nat): Fetch
    requires page <= MAX_SYSTEM_LOG_PAGES
    decreases MAX_SYSTEM_LOG_PAGES - page
  {
    if page == MAX_SYSTEM_LOG_PAGES then Fetched([], 0, true)
    else
      var p := pages(page);
      if p.PageFailed? then FetchFailed(p.error, 1)
      else if IsLastPage(page, p) then Fetched(NewOnly(p.events), 1, false)
      else
        Continued(NewOnly(p.events), 1, PagesFrom(pages, page + 1))
  }

  /** A fetch resumed after these results and requests. */
  function Continued(results: seq<Record>, requests: nat, rest: Fetch): Fetch {
    match rest
    case Fetched(events, n, capped) => Fetched(results + events, requests + n, capped)
    case FetchFailed(e, n) => FetchFailed(e, requests + n)
  }

  lemma {:induction false} NewOnlyConcat(a: seq<Record>, b: seq<Record>)
    ensures NewOnly(a + b) == NewOnly(a) + NewOnly(b)
  {
    if b == [] {
      assert a + b == a;
    } else {
      NewOnlyConcat(a, b[..|b| - 1]);
      assert (a + b)[..|a + b| - 1] == a + b[..|b| - 1];
    }
  }

  // ---- a controller that really holds a log ----

  function PageCount(n: nat): nat {
    (n + SYSTEM_LOG_PAGE_SIZE - 1) / SYSTEM_LOG_PAGE_SIZE
  }

  function Min(a: int, b: int): int {
    if a <= b then a else b
  }

  function Paged(log: seq<Record>, page: nat): Page {
    var lo := Min(page * SYSTEM_LOG_PAGE_SIZE, |log|);
    var hi := Min(lo + SYSTEM_LOG_PAGE_SIZE, |log|);
    Page(log[lo..hi], Some(PageCount(|log|)))
  }

  function Serving(log: seq<Record>): Pages {
    (page: nat) => Paged(log, page)
  }

  const FETCH_CAP: nat := SYSTEM_LOG_PAGE_SIZE * MAX_SYSTEM_LOG_PAGES

  lemma PageArithmetic(n: nat, page: nat)
    ensures page + 1 >= PageCount(n) <==> n <= (page + 1) * SYSTEM_LOG_PAGE_SIZE
    ensures page * SYSTEM_LOG_PAGE_SIZE < n <= (page + 1) * SYSTEM_LOG_PAGE_SIZE ==> PageCount(n) == page + 1
    ensures PageCount(n) == 0 <==> n == 0
  {
  }

  /** How many requests a fetch starting at this page issues. */
  function RequestsFrom(n: nat, page: nat): int {
    if n == 0 then 1 - page else Min(PageCount(n), MAX_SYSTEM_LOG_PAGES) - page
  }

  lemma ContinuedAgain(results: seq<Record>, n: nat, more: seq<Record>, rest: Fetch)
    ensures Continued(results, n, Continued(more, 1, rest)) == Continued(results + more, n + 1, rest)
    ensures rest == Continued([], 0, rest)
    ensures Continued(results, n, Fetched(more, 1, false)) == Fetched(results + more, n + 1, false)
  {
    if rest.Fetched? {
      assert results + (more + rest.events) == results + more + rest.events;
    }
  }

  /** One request of the loop. */
  lemma PagesFromStep(pages: Pages, page: nat)
    requires page <= MAX_SYSTEM_LOG_PAGES
    ensures page == MAX_SYSTEM_LOG_PAGES ==> PagesFrom(pages, page) == Fetched([], 0, true)
    ensures page < MAX_SYSTEM_LOG_PAGES ==>
              var p := pages(page);
              PagesFrom(pages, page) == if p.PageFailed? then FetchFailed(p.error, 1)
                                        else if IsLastPage(page, p) then Fetched(NewOnly(p.events), 1, false)
                                        else Continued(NewOnly(p.events), 1, PagesFrom(pages, page + 1))
  {
    hide IsLastPage, NewOnly;
  }

  /** The same, resumed after these results. */
  lemma ResumedStep(pages: Pages, results: seq<Record>, page: nat)
    requires page <= MAX_SYSTEM_LOG_PAGES
    ensures Continued([], 0, PagesFrom(pages, page)) == PagesFrom(pages, page)
    ensures var whole := Continued(results, page, PagesFrom(pages, page));
            && (page == MAX_SYSTEM_LOG_PAGES ==> whole == Fetched(results, page, true))
            && (page < MAX_SYSTEM_LOG_PAGES ==>
                  var p := pages(page);
                  whole == if p.PageFailed? then FetchFailed(p.error, page + 1)
                           else if IsLastPage(page, p) then Fetched(results + NewOnly(p.events), page + 1, false)
                           else Continued(results + NewOnly(p.events), page + 1, PagesFrom(pages, page + 1)))
  {
    hide PagesFrom, IsLastPage, NewOnly;
    PagesFromStep(pages, page);
    ContinuedAgain([], 0, [], PagesFrom(pages, page));
    if page < MAX_SYSTEM_LOG_PAGES && pages(page).Page? {
      ContinuedAgain(results, page, NewOnly(pages(page).events), PagesFrom(pages, page + 1));
    }
  }

  /** The fetch goes past this page: it answered, has events, and says there are more pages. */
  predicate GoesOn(pages: Pages, page: nat) {
    var p := pages(page);
    p.Page? && p.events != [] && p.totalPages.Some? && page + 1 < p.totalPages.value
  }

  /** The first page the fetch does not go past, or the tenth. */
  ghost predicate StopsAt(pages: Pages, n: nat) {
    n < 10 && (n == 9 || !GoesOn(pages, n)) && forall k: nat :: k < n ==> GoesOn(pages, k)
  }

  /** The events of the first n pages. */
  function EventsBefore(pages: Pages, n: nat): seq<Record> {
    if n == 0 then [] else EventsBefore(pages, n - 1) + if pages(n - 1).Page? then pages(n - 1).events else []
  }

  lemma {:induction false} ResumedAt(pages: Pages, n: nat)
    requires n <= 10 && forall k: nat :: k < n ==> GoesOn(pages, k)
    ensures PagesFrom(pages, 0) == Continued(NewOnly(EventsBefore(pages, n)), n, PagesFrom(pages, n))
  {
    hide PagesFrom, NewOnly, Continued;
    if n == 0 {
      NewOnlyOfNothing([]);
      ResumedStep(pages, [], 0);
    } else {
      ResumedAt(pages, n - 1);
      assert GoesOn(pages, n - 1);
      ResumedStep(pages, NewOnly(EventsBefore(pages, n - 1)), n - 1);
      NewOnlyConcat(EventsBefore(pages, n - 1), pages(n - 1).events);
    }
  }

  /** Against any answers: the fetch stops at the first page that fails, is empty or is the last, or at
      the tenth. If that page failed so does the fetch, with its error; else the fetch has the NEW events
      of every page up to it, and warns when the tenth was not the last. */
  lemma FetchesExactly(pages: Pages, n: nat)
    requires StopsAt(pages, n)
    ensures PagesFrom(pages, 0)
         == if pages(n).PageFailed? then FetchFailed(pages(n).error, n + 1)
            else Fetched(NewOnly(EventsBefore(pages, n + 1)), n + 1, GoesOn(pages, n))
  {
    hide PagesFrom, NewOnly;
    ResumedAt(pages, n);
    ResumedStep(pages, NewOnly(EventsBefore(pages, n)), n);
    if pages(n).Page? {
      NewOnlyConcat(EventsBefore(pages, n), pages(n).events);
      if GoesOn(pages, n) {
        ResumedAt(pages, 10);
        ResumedStep(pages, NewOnly(EventsBefore(pages, 10)), 10);
      }
    }
  }

  lemma {:induction false} StopsSomewhere(pages: Pages, from: nat) returns (n: nat)
    requires from < 10 && forall k: nat :: k < from ==> GoesOn(pages, k)
    ensures StopsAt(pages, n)
    decreases 10 - from
  {
    n := from;
    if from < 9 && GoesOn(pages, from) {
      n := StopsSomewhere(pages, from + 1);
    }
  }

  /** A response that does not say how many pages there are is the only one asked for. */
  lemma AbsentTotalIsOnePage(pages: Pages)
    requires pages(0).Page? && pages(0).totalPages.None?
    ensures PagesFrom(pages, 0) == Fetched(NewOnly(pages(0).events), 1, false)
  {
    hide PagesFrom, NewOnly;
    PagesFromStep(pages, 0);
  }

  lemma PagedFacts(log: seq<Record>, page: nat)
    requires page * SYSTEM_LOG_PAGE_SIZE < |log| || page == 0
    ensures Paged(log, page).Page?
    ensures (IsLastPage(page, Paged(log, page)) <==> |log| <= (page + 1) * SYSTEM_LOG_PAGE_SIZE)
    ensures Paged(log, page).events == log[page * SYSTEM_LOG_PAGE_SIZE..Min((page + 1) * SYSTEM_LOG_PAGE_SIZE, |log|)]
  {
    hide PageCount;
    PageArithmetic(|log|, page);
  }

  lemma {:induction false} PagesFromLog(log: seq<Record>, page: nat)
    requires page <= MAX_SYSTEM_LOG_PAGES && (page * SYSTEM_LOG_PAGE_SIZE < |log| || page == 0)
    ensures RequestsFrom(|log|, page) >= 0
    ensures PagesFrom(Serving(log), page)
         == Fetched(NewOnly(log[page * SYSTEM_LOG_PAGE_SIZE..Min(|log|, FETCH_CAP)]), RequestsFrom(|log|, page),
                    |log| > FETCH_CAP)
    decreases MAX_SYSTEM_LOG_PAGES - page
  {
    hide PageCount, NewOnly, Paged, IsLastPage, PagesFrom;
    PageArithmetic(|log|, page);
    PageArithmetic(|log|, MAX_SYSTEM_LOG_PAGES - 1);
    PagesFromStep(Serving(log), page);
    if page < MAX_SYSTEM_LOG_PAGES {
      PagedFacts(log, page);
      var here, next := page * SYSTEM_LOG_PAGE_SIZE, (page + 1) * SYSTEM_LOG_PAGE_SIZE;
      if next < |log| {
        var hi := Min(|log|, FETCH_CAP);
        PagesFromLog(log, page + 1);
        NewOnlyConcat(log[here..next], log[next..hi]);
        assert log[here..hi] == log[here..next] + log[next..hi];
      }
    } else {
      NewOnlyOfNothing(log[page * SYSTEM_LOG_PAGE_SIZE..Min(|log|, FETCH_CAP)]);
    }
  }

  lemma NewOnlyOfNothing(rs: seq<Record>)
    requires |rs| == 0
    ensures NewOnly(rs) == []
  {
  }

  /** Against a log of n events in pages of 100 the loop issues max(1, min(10, ceil(n/100)))
      requests, returns exactly the NEW events of the first min(n, 1000) in order, and warns about
      the cap exactly when n > 1000. */
  lemma PaginationIsExact(log: seq<Record>)
    ensures PagesFrom(Serving(log), 0)
         == Fetched(NewOnly(log[..Min(|log|, 1000)]), Min(10, if |log| == 0 then 1 else (|log| + 99) / 100),
                    |log| > 1000)
  {
    hide PagesFrom, NewOnly;
    PagesFromLog(log, 0);
    PageArithmetic(|log|, 0);
  }

  /** Whatever a controller answers, a fetch costs at least one and at most ten requests. */
  lemma {:induction false} RequestsAreBounded(pages: Pages, page: nat)
    requires page < MAX_SYSTEM_LOG_PAGES
    ensures 1 <= PagesFrom(pages, page).requests <= MAX_SYSTEM_LOG_PAGES - page
    ensures PagesFrom(pages, page).Fetched? && PagesFrom(pages, page).capped ==>
            PagesFrom(pages, page).requests == MAX_SYSTEM_LOG_PAGES - page
    decreases MAX_SYSTEM_LOG_PAGES - page
  {
    if page + 1 < MAX_SYSTEM_LOG_PAGES {
      RequestsAreBounded(pages, page + 1);
    }
  }

  // ---- sorting alerts into categories ----

  /** A parsed record: its full key and its alert ("" category when none resolves). */
  datatype Item = Item(key: string, alert: Alert)

  function ItemsOf(rs: seq<Record>, now: int): (r: seq<Item>)
    ensures |r| == |rs|
  {
    if rs == [] then [] else ItemsOf(rs[..|rs| - 1], now) + [Item(rs[|rs| - 1].key, AlertOf(rs[|rs| - 1], now))]
  }

  function Get<T>(m: map<string, T>, k: string, default: T): T {
    if k in m then m[k] else default
  }

  /** setdefault(category, []).append(alert), when a category resolved. */
  function Placed(found: map<string, seq<Alert>>, a: Alert): map<string, seq<Alert>> {
    if a.category == "" then found else found[a.category := Get(found, a.category, []) + [a]]
  }

  /** One more unclassified event, when it has a key. */
  function Noted(tally: map<string, int>, x: Item): map<string, int> {
    if x.alert.category == "" && x.key != "" then tally[x.key := Get(tally, x.key, 0) + 1] else tally
  }

  function Categorised(items: seq<Item>): map<string, seq<Alert>> {
    if items == [] then map[] else Placed(Categorised(items[..|items| - 1]), items[|items| - 1].alert)
  }

  function Tally(base: map<string, int>, keys: seq<string>): map<string, int> {
    if keys == [] then base
    else
      var pre, k := Tally(base, keys[..|keys| - 1]), keys[|keys| - 1];
      pre[k := Get(pre, k, 0) + 1]
  }

  /** The keys of unclassified events that have one, in order. */
  function UnclassifiedKeys(items: seq<Item>): seq<string> {
    if items == [] then []
    else
      var x := items[|items| - 1];
      UnclassifiedKeys(items[..|items| - 1]) + if x.alert.category == "" && x.key != "" then [x.key] else []
  }

  function KeylessDrops(items: seq<Item>): nat {
    if items == [] then 0
    else
      var x := items[|items| - 1];
      KeylessDrops(items[..|items| - 1]) + if x.alert.category == "" && x.key == "" then 1 else 0
  }

  function OfCategory(items: seq<Item>, c: string): seq<Alert> {
    if items == [] then []
    else
      var x := items[|items| - 1];
      OfCategory(items[..|items| - 1], c) + if x.alert.category == c then [x.alert] else []
  }

  /** One more item: into its category's list, or onto the tally, or dropped. */
  lemma OneMoreItem(items: seq<Item>, x: Item, base: map<string, int>)
    ensures Categorised(items + [x]) == Placed(Categorised(items), x.alert)
    ensures Tally(base, UnclassifiedKeys(items + [x])) == Noted(Tally(base, UnclassifiedKeys(items)), x)
  {
    assert (items + [x])[..|items|] == items;
    var keys := UnclassifiedKeys(items);
    assert (keys + [x.key])[..|keys|] == keys;
    assert keys + [] == keys;
  }

  /** Each list is the alerts of that category in order; a category without alerts has no list. */
  lemma {:induction false} CategorisedIsExact(items: seq<Item>, c: string)
    requires c != ""
    ensures Get(Categorised(items), c, []) == OfCategory(items, c)
    ensures c in Categorised(items) <==> OfCategory(items, c) != []
    ensures "" !in Categorised(items)
  {
    if items != [] {
      CategorisedIsExact(items[..|items| - 1], c);
    }
  }

  lemma {:induction false} TallyCounts(base: map<string, int>, keys: seq<string>, k: string)
    ensures Get(Tally(base, keys), k, 0) == Get(base, k, 0) + multiset(keys)[k]
  {
    if keys != [] {
      TallyCounts(base, keys[..|keys| - 1], k);
      assert keys == keys[..|keys| - 1] + [keys[|keys| - 1]];
    }
  }

  lemma {:induction false} TallyConcat(base: map<string, int>, a: seq<string>, b: seq<string>)
    ensures Tally(Tally(base, a), b) == Tally(base, a + b)
  {
    if b == [] {
      assert a + b == a;
    } else {
      TallyConcat(base, a, b[..|b| - 1]);
      assert (a + b)[..|a + b| - 1] == a + b[..|b| - 1];
    }
  }

  function Total(items: seq<Item>, cs: seq<string>): nat {
    if cs == [] then 0 else |OfCategory(items, cs[0])| + Total(items, cs[1..])
  }

  function Occurrences(cs: seq<string>, c: string): nat {
    if cs == [] then 0 else (if cs[0] == c then 1 else 0) + Occurrences(cs[1..], c)
  }

  lemma {:induction false} TotalGrows(items: seq<Item>, cs: seq<string>)
    requires items != []
    ensures Total(items, cs) == Total(items[..|items| - 1], cs) + Occurrences(cs, items[|items| - 1].alert.category)
  {
    if cs != [] {
      TotalGrows(items, cs[1..]);
    }
  }

  lemma {:induction false} OccursOnce(cs: seq<string>, c: string)
    requires forall i, j :: 0 <= i < j < |cs| ==> cs[i] != cs[j]
    ensures Occurrences(cs, c) == if c in cs then 1 else 0
  {
    if cs != [] {
      OccursOnce(cs[1..], c);
    }
  }

  lemma CategoriesAreDistinct(i: nat, j: nat)
    requires i < j < |Constants.ALL_CATEGORIES|
    ensures Constants.ALL_CATEGORIES[i] != Constants.ALL_CATEGORIES[j]
  {
    var a, b := Constants.ALL_CATEGORIES[i], Constants.ALL_CATEGORIES[j];
    assert |a| != |b| || a[8] != b[8] || a[9] != b[9];
  }

  lemma OncePerCategory(c: string)
    requires c in Constants.ALL_CATEGORIES || c == ""
    ensures Occurrences(Constants.ALL_CATEGORIES, c) == if c == "" then 0 else 1
  {
    forall i: nat, j: nat | i < j < |Constants.ALL_CATEGORIES|
      ensures Constants.ALL_CATEGORIES[i] != Constants.ALL_CATEGORIES[j]
    {
      CategoriesAreDistinct(i, j);
    }
    OccursOnce(Constants.ALL_CATEGORIES, c);
    if c == "" && c in Constants.ALL_CATEGORIES {
      Constants.CategoryLengths(c);
    }
  }

  /** Conservation: every event lands in exactly one category list, or is counted once under its
      key, or is a keyless drop. */
  lemma {:induction false} CategorisationConserves(items: seq<Item>)
    requires forall x :: x in items ==> x.alert.category in Constants.ALL_CATEGORIES || x.alert.category == ""
    ensures |items| == Total(items, Constants.ALL_CATEGORIES) + |UnclassifiedKeys(items)| + KeylessDrops(items)
  {
    if items == [] {
      NothingTotals(Constants.ALL_CATEGORIES);
    } else {
      hide Occurrences, Total;
      CategorisationConserves(items[..|items| - 1]);
      TotalGrows(items, Constants.ALL_CATEGORIES);
      OncePerCategory(items[|items| - 1].alert.category);
    }
  }

  lemma {:induction false} NothingTotals(cs: seq<string>)
    ensures Total([], cs) == 0
  {
    if cs != [] {
      NothingTotals(cs[1..]);
    }
  }
}
