/** models.py: the alert record and the long-lived state of one category. */
module Models {
  import opened Wrappers

  /** What json.loads can return, reals left out. */
  datatype Json =
    JNull | JBool(b: bool) | JInt(i: int) | JStr(s: string) | JList(items: seq<Json>) | JObj(fields: map<string, Json>)

  const NO_RAW := JObj(map[])

  /** Timestamps are milliseconds. */
  datatype Alert = Alert(category: string, message: string, receivedAt: int, raw: Json,
                         key: string, deviceName: string, site: string, severity: string)

  /** The value of a CategoryState at one moment. */
  datatype Cat = Cat(enabled: bool, alerting: bool, lastAlert: Option<Alert>, alertCount: int, openCount: int,
                     filteredCount: int, clearedAt: Option<int>, webhookAt: Option<int>, filteredAt: Option<int>,
                     newestSeen: Option<int>)

  function FreshCat(enabled: bool): Cat {
    Cat(enabled, false, None, 0, 0, 0, None, None, None, None)
  }

  function Applied(c: Cat, a: Alert): Cat {
    c.(alerting := true, lastAlert := Some(a), alertCount := c.alertCount + 1,
    newestSeen := Later(c.newestSeen, a.receivedAt))
  }

  function FilteredOut(c: Cat, a: Alert): Cat {
    c.(filteredCount := c.filteredCount + 1, filteredAt := Some(a.receivedAt))
  }

  /** Acknowledge everything seen; the host clock is used only when nothing was. */
  function Acknowledged(c: Cat, wall: int): Cat {
    c.(alerting := false, clearedAt := if c.newestSeen.Some? then c.newestSeen else Some(wall))
  }

  class CategoryState {
    const category: string
    var enabled: bool
    var isAlerting: bool
    var lastAlert: Option<Alert>
    var alertCount: int
    var openCount: int
    var filteredCount: int
    var lastClearedAt: Option<int>
    var lastWebhookAt: Option<int>
    var lastFilteredAt: Option<int>
    var lastAlarmReceivedAt: Option<int>

    function View(): Cat
      reads this
    {
      Cat(enabled, isAlerting, lastAlert, alertCount, openCount, filteredCount,
          lastClearedAt, lastWebhookAt, lastFilteredAt, lastAlarmReceivedAt)
    }

    constructor (category: string, enabled: bool)
      ensures this.category == category && View() == FreshCat(enabled)
    {
      this.category := category;
      this.enabled := enabled;
      isAlerting, lastAlert, alertCount, openCount, filteredCount := false, None, 0, 0, 0;
      lastClearedAt, lastWebhookAt, lastFilteredAt, lastAlarmReceivedAt := None, None, None, None;
    }

    method ApplyAlert(alert: Alert)
      modifies this
      ensures View() == Applied(old(View()), alert)
    {
      isAlerting := true;
      lastAlert := Some(alert);
      alertCount := alertCount + 1;
      if lastAlarmReceivedAt.None? || alert.receivedAt > lastAlarmReceivedAt.value {
        lastAlarmReceivedAt := Some(alert.receivedAt);
      }
    }

    method RecordFiltered(alert: Alert)
      modifies this
      ensures View() == FilteredOut(old(View()), alert)
    {
      filteredCount := filteredCount + 1;
      lastFilteredAt := Some(alert.receivedAt);
    }

    method Clear(wall: int)
      modifies this
      ensures View() == Acknowledged(old(View()), wall)
    {
      isAlerting := false;
      if lastAlarmReceivedAt.Some? {
        lastClearedAt := lastAlarmReceivedAt;
      } else {
        lastClearedAt := Some(wall);
      }
    }
  }
}
