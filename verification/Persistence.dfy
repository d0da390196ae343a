/** coordinator.py's snapshot and restore of category state. */
module Persistence {
  import opened Wrappers
  import opened Models
  import opened Machine
  import Acknowledgement

  /** isoformat / fromisoformat, int() and str() as the snapshot uses them; None where they raise. */
  datatype Codec = Codec(iso: int -> string, fromIso: string -> Option<int>, toInt: Json -> Option<int>,
                         show: Json -> string)

  ghost predicate Faithful(k: Codec) {
    && (forall t: int :: k.fromIso(k.iso(t)) == Some(t))
    && (forall n: int :: k.toInt(JInt(n)) == Some(n))
    && (forall s: string :: k.show(JStr(s)) == s)
  }

  /** A faithful codec: timestamps in unary, a sign per unit. */
  const UNARY := Codec(
    (t: int) => if t >= 0 then seq(t, _ => '+') else seq(-t, _ => '-'),
    (s: string) => if s == "" || s[0] == '+' then Some(|s|) else Some(-|s|),
    (j: Json) => if j.JInt? then Some(j.i) else None,
    (j: Json) => if j.JStr? then j.s else "")

  lemma UnaryIsFaithful()
    ensures Faithful(UNARY)
  {
    forall t: int ensures UNARY.fromIso(UNARY.iso(t)) == Some(t) {
      assert |UNARY.iso(t)| == if t >= 0 then t else -t;
    }
  }

  const SEVERITY_LIMIT: nat := 32

  function Clip(s: string, n: nat): string {
    if |s| <= n then s else s[..n]
  }

  // ---- alerts ----

  function AlertToDict(k: Codec, a: Alert): Json {
    JObj(map["category" := JStr(a.category), "message" := JStr(a.message), "received_at" := JStr(k.iso(a.receivedAt)),
             "key" := JStr(a.key), "device_name" := JStr(a.deviceName), "site" := JStr(a.site),
             "severity" := JStr(a.severity)])
  }

  function Field(o: map<string, Json>, name: string, default: Json): Json {
    if name in o then o[name] else default
  }

  /** A timestamp field: None when it is not a string or does not parse. */
  function ReadTime(k: Codec, j: Json): Option<int> {
    if j.JStr? then k.fromIso(j.s) else None
  }

  function AlertFromDict(k: Codec, o: map<string, Json>, now: int): Alert {
    var at := ReadTime(k, Field(o, "received_at", JStr("")));
    Alert(k.show(Field(o, "category", JStr(""))), k.show(Field(o, "message", JStr(""))),
          if at.Some? then at.value else now, Field(o, "raw", NO_RAW),
          k.show(Field(o, "key", JStr(""))), k.show(Field(o, "device_name", JStr(""))),
          k.show(Field(o, "site", JStr(""))), Clip(k.show(Field(o, "severity", JStr(""))), SEVERITY_LIMIT))
  }

  /** Every constructor of an alert clips its severity. */
  predicate Clipped(a: Alert) {
    |a.severity| <= SEVERITY_LIMIT
  }

  lemma AlertRoundTrip(k: Codec, a: Alert, now: int)
    requires Faithful(k)
    ensures AlertFromDict(k, AlertToDict(k, a).fields, now) == a.(raw := NO_RAW) <==> Clipped(a)
  {
  }

  lemma TimeRoundTrip(k: Codec, t: Option<int>)
    requires Faithful(k)
    ensures ReadTime(k, if t.Some? then JStr(k.iso(t.value)) else JNull) == t
  {
    if t.Some? {
      var v: int := t.value;
      assert k.fromIso(k.iso(v)) == Some(v);
    }
  }

  // ---- one category ----

  function WithTime(k: Codec, o: map<string, Json>, name: string, t: Option<int>): map<string, Json> {
    if t.Some? then o[name := JStr(k.iso(t.value))] else o
  }

  function BuildEntry(k: Codec, c: Cat): Json {
    var base := map["alert_count" := JInt(c.alertCount),
                    "last_alert" := if c.lastAlert.Some? then AlertToDict(k, c.lastAlert.value) else JNull];
    JObj(WithTime(k, WithTime(k, base, "last_cleared_at", c.clearedAt), "last_webhook_at", c.webhookAt))
  }

  function OrKeep(t: Option<int>, old_: Option<int>): Option<int> {
    if t.Some? then t else old_
  }

  datatype RestoreError = BadCount | LastAlertNotADict

  /** A dict entry: a bad timestamp is skipped; a bad count, or a last_alert that is no dict, escapes
      as an error. */
  function RestoreDict(k: Codec, c: Cat, o: map<string, Json>, now: int): Result<Cat, RestoreError> {
    var count := k.toInt(Field(o, "alert_count", JInt(0)));
    var last := Field(o, "last_alert", JNull);
    if count.None? then Err(BadCount)
    else if !last.JNull? && !last.JObj? then Err(LastAlertNotADict)
    else Ok(c.(clearedAt := OrKeep(ReadTime(k, Field(o, "last_cleared_at", JNull)), c.clearedAt),
               alertCount := count.value,
               lastAlert := if last.JObj? then Some(AlertFromDict(k, last.fields, now)) else c.lastAlert,
               webhookAt := OrKeep(ReadTime(k, Field(o, "last_webhook_at", JNull)), c.webhookAt)))
  }

  /** One stored entry: a legacy watermark string, a dict, or anything else (ignored). */
  function RestoreEntry(k: Codec, c: Cat, entry: Json, now: int): Result<Cat, RestoreError> {
    match entry
    case JStr(s) => Ok(c.(clearedAt := OrKeep(k.fromIso(s), c.clearedAt)))
    case JObj(o) => RestoreDict(k, c, o, now)
    case _ => Ok(c)
  }

  /** What of a category survives a restart: everything persisted, without the raw payload. */
  function Durable(c: Cat, enabled: bool): Cat {
    FreshCat(enabled).(clearedAt := c.clearedAt, alertCount := c.alertCount, webhookAt := c.webhookAt,
    lastAlert := if c.lastAlert.Some? then Some(c.lastAlert.value.(raw := NO_RAW)) else None)
  }

  predicate ClippedCat(c: Cat) {
    c.lastAlert.Some? ==> Clipped(c.lastAlert.value)
  }

  lemma BuiltFields(k: Codec, c: Cat)
    ensures var o := BuildEntry(k, c).fields;
            && Field(o, "alert_count", JInt(0)) == JInt(c.alertCount)
            && Field(o, "last_alert", JNull) == (if c.lastAlert.Some? then AlertToDict(k, c.lastAlert.value) else JNull)
            && Field(o, "last_cleared_at", JNull)
                == (if c.clearedAt.Some? then JStr(k.iso(c.clearedAt.value)) else JNull)
            && Field(o, "last_webhook_at", JNull)
                == (if c.webhookAt.Some? then JStr(k.iso(c.webhookAt.value)) else JNull)
  {
    hide AlertToDict;
    var count, last, cleared, webhook := "alert_count", "last_alert", "last_cleared_at", "last_webhook_at";
    assert cleared[5] != webhook[5];
    assert |count| == 11 && |last| == 10 && |cleared| == 15 && |webhook| == 15;
  }

  lemma DictRoundTrip(k: Codec, c: Cat, enabled: bool, o: map<string, Json>, now: int)
    requires Faithful(k) && ClippedCat(c)
    requires Field(o, "alert_count", JInt(0)) == JInt(c.alertCount)
    requires Field(o, "last_alert", JNull) == (if c.lastAlert.Some? then AlertToDict(k, c.lastAlert.value) else JNull)
    requires Field(o, "last_cleared_at", JNull) == (if c.clearedAt.Some? then JStr(k.iso(c.clearedAt.value)) else JNull)
    requires Field(o, "last_webhook_at", JNull) == (if c.webhookAt.Some? then JStr(k.iso(c.webhookAt.value)) else JNull)
    ensures RestoreDict(k, FreshCat(enabled), o, now) == Ok(Durable(c, enabled))
  {
    hide AlertFromDict, Field;
    if c.lastAlert.Some? {
      AlertRoundTrip(k, c.lastAlert.value, now);
      assert Field(o, "last_alert", JNull).JObj?;
    }
    TimeRoundTrip(k, c.clearedAt);
    TimeRoundTrip(k, c.webhookAt);
  }

  lemma EntryRoundTrip(k: Codec, c: Cat, enabled: bool, now: int)
    requires Faithful(k) && ClippedCat(c)
    ensures RestoreEntry(k, FreshCat(enabled), BuildEntry(k, c), now) == Ok(Durable(c, enabled))
  {
    hide AlertToDict, RestoreDict, Field, WithTime, Durable;
    BuiltFields(k, c);
    DictRoundTrip(k, c, enabled, BuildEntry(k, c).fields, now);
  }

  /** What one stored entry restores: a legacy string is the watermark, if it parses; an empty dict resets
      the count and keeps the rest; a dict's null or unparsable times keep the old ones; any other entry
      keeps everything. */
  lemma EntryBranches(k: Codec, c: Cat, t: int, text: string, b: bool, xs: seq<Json>, now: int)
    requires Faithful(k)
    ensures RestoreEntry(k, c, JStr(k.iso(t)), now) == Ok(c.(clearedAt := Some(t)))
    ensures k.fromIso(text).None? ==> RestoreEntry(k, c, JStr(text), now) == Ok(c)
    ensures RestoreEntry(k, c, JObj(map[]), now) == Ok(c.(alertCount := 0))
    ensures k.fromIso(text).None? ==>
              RestoreEntry(k, c, JObj(map["last_webhook_at" := JStr(text)]), now) == Ok(c.(alertCount := 0))
    ensures RestoreEntry(k, c, JObj(map["last_cleared_at" := JStr(k.iso(t))]), now)
         == Ok(c.(alertCount := 0, clearedAt := Some(t)))
    ensures RestoreEntry(k, c, JNull, now) == RestoreEntry(k, c, JList(xs), now) == Ok(c)
    ensures RestoreEntry(k, c, JBool(b), now) == RestoreEntry(k, c, JInt(t), now) == Ok(c)
  {
    hide AlertFromDict;
    var count, last, cleared, webhook := "alert_count", "last_alert", "last_cleared_at", "last_webhook_at";
    assert cleared[5] != webhook[5];
    assert |count| == 11 && |last| == 10 && |cleared| == 15 && |webhook| == 15;
  }

  /** A stored alert without fields: every text empty, stamped at the time of the restore. */
  lemma EmptyAlertRestores(k: Codec, now: int)
    requires Faithful(k)
    ensures k.fromIso("").None? ==> AlertFromDict(k, map[], now) == Alert("", "", now, NO_RAW, "", "", "", "")
  {
  }

  // ---- all categories ----

  function Build(k: Codec, cats: map<string, Cat>): map<string, Json> {
    map c | c in cats :: BuildEntry(k, cats[c])
  }

  function RestoredOr(k: Codec, c: Cat, data: map<string, Json>, name: string, now: int): Result<Cat, RestoreError> {
    if name in data then RestoreEntry(k, c, data[name], now) else Ok(c)
  }

  /** Stored entries of known categories applied in turn; the first error aborts setup. */
  function Restore(k: Codec, cats: map<string, Cat>, data: map<string, Json>, now: int): Option<map<string, Cat>> {
    if forall c :: c in cats ==> RestoredOr(k, cats[c], data, c, now).Ok?
    then Some(map c | c in cats :: RestoredOr(k, cats[c], data, c, now).value)
    else None
  }

  function FreshCats(enabled: map<string, bool>): map<string, Cat> {
    map c | c in enabled :: FreshCat(enabled[c])
  }

  lemma RestoreEach(k: Codec, cats: map<string, Cat>, data: map<string, Json>, now: int, r: map<string, Cat>)
    requires r.Keys == cats.Keys && forall c :: c in cats ==> RestoredOr(k, cats[c], data, c, now) == Ok(r[c])
    ensures Restore(k, cats, data, now) == Some(r)
  {
    hide RestoredOr;
    var m := map c | c in cats :: RestoredOr(k, cats[c], data, c, now).value;
    assert m == r;
  }

  lemma OneBadEntry(k: Codec, cats: map<string, Cat>, data: map<string, Json>, now: int, c: string)
    requires c in cats && RestoredOr(k, cats[c], data, c, now).Err?
    ensures Restore(k, cats, data, now).None?
  {
    hide RestoredOr;
  }

  /** A stored entry restores: it is no dict, or its count is a number and its last alert a dict or null. */
  predicate Restorable(k: Codec, entry: Json) {
    entry.JObj? ==>
      && k.toInt(Field(entry.fields, "alert_count", JInt(0))).Some?
      && (Field(entry.fields, "last_alert", JNull).JNull? || Field(entry.fields, "last_alert", JNull).JObj?)
  }

  lemma EntryRestoresExactly(k: Codec, c: Cat, data: map<string, Json>, name: string, now: int)
    ensures RestoredOr(k, c, data, name, now).Ok? <==> (name in data ==> Restorable(k, data[name]))
  {
    hide AlertFromDict, OrKeep, ReadTime;
  }

  /** Exactly when a restore goes through: every stored entry of a known category restores. A bad
      timestamp, an unknown category and an entry of another type are skipped; a bad count or last
      alert of one category stops the restore of all. */
  lemma RestoreSucceedsExactly(k: Codec, cats: map<string, Cat>, data: map<string, Json>, now: int)
    ensures Restore(k, cats, data, now).Some? <==> forall c :: c in cats && c in data ==> Restorable(k, data[c])
  {
    hide RestoredOr, Restorable;
    forall c | c in cats ensures RestoredOr(k, cats[c], data, c, now).Ok? <==> (c in data ==> Restorable(k, data[c])) {
      EntryRestoresExactly(k, cats[c], data, c, now);
    }
  }

  /** Whatever else is stored, one last_alert that is a text makes the restore fail, while a text that
      is no timestamp does not. */
  lemma OneCorruptEntryStopsAll(k: Codec, cats: map<string, Cat>, data: map<string, Json>, c: string, now: int)
    requires c in cats && Faithful(k)
    ensures Restore(k, cats, data[c := JObj(map["last_alert" := JStr("corrupt")])], now).None?
    ensures Restore(k, cats, map[c := JObj(map["last_cleared_at" := JStr("corrupt")])], now).Some?
    ensures Restore(k, cats, map[c := JStr("corrupt")], now).Some?
  {
    hide Restore;
    var bad := JObj(map["last_alert" := JStr("corrupt")]);
    var odd := JObj(map["last_cleared_at" := JStr("corrupt")]);
    assert !Restorable(k, bad);
    assert Restorable(k, odd) && Restorable(k, JStr("corrupt")) by {
      var cleared, last, count := "last_cleared_at", "last_alert", "alert_count";
      assert |cleared| == 15 && |last| == 10 && |count| == 11;
      assert odd.fields.Keys == {cleared};
    }
    RestoreSucceedsExactly(k, cats, data[c := bad], now);
    RestoreSucceedsExactly(k, cats, map[c := odd], now);
    RestoreSucceedsExactly(k, cats, map[c := JStr("corrupt")], now);
  }

  /** What survives of every category. */
  function DurableAll(cats: map<string, Cat>, enabled: map<string, bool>): (r: map<string, Cat>)
    requires cats.Keys == enabled.Keys
    ensures r.Keys == cats.Keys
  {
    map c | c in cats :: Durable(cats[c], enabled[c])
  }

  /** Restoring a built snapshot into a fresh coordinator, whatever is enabled now, reproduces the
      watermark, count, last alert (without raw) and last webhook time of every category. */
  lemma SnapshotRoundTrip(k: Codec, cats: map<string, Cat>, enabled: map<string, bool>, now: int)
    requires Faithful(k) && cats.Keys == enabled.Keys && forall c :: c in cats ==> ClippedCat(cats[c])
    ensures Restore(k, FreshCats(enabled), Build(k, cats), now) == Some(DurableAll(cats, enabled))
  {
    hide BuildEntry, RestoreEntry, Durable, Restore, Faithful, ClippedCat;
    forall c | c in cats
      ensures RestoredOr(k, FreshCats(enabled)[c], Build(k, cats), c, now) == Ok(DurableAll(cats, enabled)[c])
    {
      EntryRoundTrip(k, cats[c], enabled[c], now);
    }
    RestoreEach(k, FreshCats(enabled), Build(k, cats), now, DurableAll(cats, enabled));
  }

  lemma RestoredIsDurable(k: Codec, enabled: bool, data: map<string, Json>, name: string, now: int)
    ensures var r := RestoredOr(k, FreshCat(enabled), data, name, now);
            r.Ok? ==> ClippedCat(r.value)
                      && Durable(r.value, enabled) == r.value.(lastAlert := Durable(r.value, enabled).lastAlert)
  {
    hide AlertToDict;
  }

  /** Restore, build, restore again is restore, up to raw: on legacy strings, dicts, corrupt
      timestamps and any other payload the first restore gets through. */
  lemma RestoreIsStable(k: Codec, enabled: map<string, bool>, data: map<string, Json>, now: int, later: int)
    requires Faithful(k) && forall c :: c in enabled && c in data ==> Restorable(k, data[c])
    ensures Restore(k, FreshCats(enabled), data, now).Some?
    ensures var once := Restore(k, FreshCats(enabled), data, now).value;
            && once.Keys == enabled.Keys
            && Restore(k, FreshCats(enabled), Build(k, once), later) == Some(DurableAll(once, enabled))
            && forall c :: c in once ==>
                 DurableAll(once, enabled)[c] == once[c].(lastAlert := DurableAll(once, enabled)[c].lastAlert)
  {
    hide Build, RestoredOr, Durable, ClippedCat, Restorable;
    RestoreSucceedsExactly(k, FreshCats(enabled), data, now);
    var once := Restore(k, FreshCats(enabled), data, now).value;
    forall c | c in once
      ensures ClippedCat(once[c])
      ensures Durable(once[c], enabled[c]) == once[c].(lastAlert := Durable(once[c], enabled[c]).lastAlert)
    {
      RestoredIsDurable(k, enabled[c], data, c, now);
    }
    SnapshotRoundTrip(k, once, enabled, later);
  }

  // ---- restart ----

  function Cats(s: Core): map<string, Cat> {
    map c | c in s.lanes :: s.lanes[c].cat
  }

  /** The coordinator of the next instance. */
  function Started(cats: map<string, Cat>): (s: Core)
    ensures s.lanes.Keys == cats.Keys
  {
    Core(map c | c in cats :: Lane(cats[c], Timers(None, [])), map[])
  }

  predicate ClippedEvent(e: Event) {
    match e.action
    case Push(_, a) => Clipped(a)
    case Poll(found) => forall c, a :: c in found && a in found[c] ==> Clipped(a)
    case _ => true
  }

  predicate ClippedEvents(es: seq<Event>) {
    forall e :: e in es ==> ClippedEvent(e)
  }

  lemma ClippedStep(cfg: Config, s: Core, e: Event, c: string)
    requires c in s.lanes && ClippedCat(s.lanes[c].cat) && ClippedEvent(e)
    ensures ClippedCat(Step(cfg, s, e).lanes[c].cat)
  {
    hide Passes, Scheduled, Unscheduled, Judge, Clipped;
  }

  lemma {:induction false} ClippedRun(cfg: Config, s: Core, es: seq<Event>, c: string)
    requires c in s.lanes && ClippedCat(s.lanes[c].cat) && ClippedEvents(es)
    ensures ClippedCat(Run(cfg, s, es).lanes[c].cat)
  {
    hide Step, ClippedCat, ClippedEvent;
    if es != [] {
      ClippedRun(cfg, s, es[..|es| - 1], c);
      ClippedStep(cfg, Run(cfg, s, es[..|es| - 1]), es[|es| - 1], c);
    }
  }

  /** Each alarm found for c carries the timestamp of one of these. */
  ghost predicate SeenBefore(found: map<string, seq<Alert>>, c: string, seen: seq<Alert>) {
    c in found ==> forall a :: a in found[c] ==> exists b :: b in seen && a.receivedAt == b.receivedAt
  }

  /** This run of the new instance applies no push of c, does not clear it, and polls of it only
      alarms with the timestamps of these. */
  ghost predicate Replays(cfg: Config, s: Core, es: seq<Event>, c: string, seen: seq<Alert>)
    requires c in s.lanes
  {
    es == [] ||
    (var mid, e := Run(cfg, s, es[..|es| - 1]), es[|es| - 1];
     && Replays(cfg, s, es[..|es| - 1], c, seen)
     && !Accepts(cfg, mid, e, c) && !Acknowledgement.Clears(mid, e, c)
     && (e.action.Poll? ==> SeenBefore(e.action.found, c, seen)))
  }

  lemma {:induction false} ReplaysUndisturbed(cfg: Config, s: Core, es: seq<Event>, c: string, seen: seq<Alert>, w: int)
    requires c in s.lanes && Replays(cfg, s, es, c, seen) && forall b :: b in seen ==> b.receivedAt <= w
    ensures Acknowledgement.Undisturbed(cfg, s, es, c, w)
  {
    hide Run, Passes, Accepts, Acknowledgement.Clears;
    if es != [] {
      ReplaysUndisturbed(cfg, s, es[..|es| - 1], c, seen, w);
    }
  }

  /** A durable state starts a new instance with everything it acknowledged still held. */
  lemma DurableIsHeld(cats: map<string, Cat>, enabled: map<string, bool>, c: string, w: int)
    requires cats.Keys == enabled.Keys && c in cats && cats[c].clearedAt == Some(w)
    ensures IsStart(Started(DurableAll(cats, enabled)))
            && Acknowledgement.Held(Started(DurableAll(cats, enabled)).lanes[c].cat, w)
  {
  }

  /** After a clear made with something observed, a snapshot taken at any later step and a restart,
      any run that only polls alerts with stamps observed before that clear counts nothing, alerts on
      nothing and keeps the watermark, whatever happens to other categories and however often it polls. */
  lemma AcknowledgementSurvivesRestart(k: Codec, cfg: Config, s: Core, pre: seq<Event>, clear: Event,
                                       post: seq<Event>, c: string,
                                       next: Config, enabled: map<string, bool>, now: int)
    requires Faithful(k) && IsStart(s) && c in s.lanes && enabled.Keys == s.lanes.Keys
    requires forall d :: d in s.lanes ==> ClippedCat(s.lanes[d].cat)
    requires ClippedEvents(pre + [clear] + post)
    requires Acknowledgement.ClearsSomethingSeen(cfg, s, pre, clear, c)
    ensures var final := Run(cfg, s, pre + [clear] + post);
            var restored := Restore(k, FreshCats(enabled), Build(k, Cats(final)), now);
            && restored.Some? && restored.value.Keys == s.lanes.Keys && IsStart(Started(restored.value))
            && var mark, again := final.lanes[c].cat.clearedAt, Started(restored.value);
               && mark.Some?
               && forall es :: Replays(next, again, es, c, Acknowledgement.Seen(cfg, s, pre, c))
                               ==> Acknowledgement.Held(Run(next, again, es).lanes[c].cat, mark.value)
  {
    hide Run, Acknowledgement.Seen, Acknowledgement.Clears, Build, Restore, FreshCats, ClippedCat, ClippedEvent,
        DurableAll, Faithful,
      Started, IsStart, Replays, Acknowledgement.Held, Acknowledgement.Undisturbed;
    var final, seen := Run(cfg, s, pre + [clear] + post), Acknowledgement.Seen(cfg, s, pre, c);
    forall d | d in s.lanes ensures ClippedCat(final.lanes[d].cat) {
      ClippedRun(cfg, s, pre + [clear] + post, d);
    }
    Acknowledgement.WatermarkOnlyAdvances(cfg, s, pre, clear, post, c);
    SnapshotRoundTrip(k, Cats(final), enabled, now);
    var w, again := final.lanes[c].cat.clearedAt.value, Started(DurableAll(Cats(final), enabled));
    DurableIsHeld(Cats(final), enabled, c, w);
    forall es | Replays(next, again, es, c, seen) ensures Acknowledgement.Held(Run(next, again, es).lanes[c].cat, w) {
      ReplaysUndisturbed(next, again, es, c, seen, w);
      Acknowledgement.HeldExactlyWhileUndisturbed(next, again, es, c, w);
    }
  }
}
