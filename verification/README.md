# UniFi Alerts: a verified model

A Home Assistant integration turns alarms of a UniFi controller into one alert state per category.
Alarms arrive as webhook pushes and are reconciled by polling. This project models that behaviour in
Dafny and proves what it promises over whole runs.

- `Machine.dfy` is the coordinator as a state machine. Each category is a lane holding its state and
  its auto-clear tasks; all lanes share one dedup table. One step is one stretch of code between two
  awaits: a push, a fetched poll being applied, a clear, a task waking, a task finishing its persist,
  a broadcast. A run is any sequence of steps. There are three clocks: the host's monotonic one
  (dedup, sleeping tasks), the host's wall clock (clears with nothing seen, and the stamp a webhook
  push gets on receipt and an alarm without a timestamp in each poll), and the controller's, which
  stamps the other alarms. The stamp of an alert is an input of the machine; who gives it is modelled
  in `ClockSkew.dfy`, `Timestamps.dfy`, `SystemLog.dfy` and `Client.dfy`.
- `Coordinator.dfy` is the coordinator as an object whose methods update its fields, with
  `CategoryState` (`Models.dfy`) and `UniFiClient` (`Client.dfy`) as objects beside it. Every method
  is proved equal to a step of the machine or to a specification function.
- `Dedup`, `Timers`, `Acknowledgement`, `Histories`, `ClockSkew`, `Events`, `Persistence` and `Probing`
  hold the whole-run theorems: greedy-optimal dedup, timer safety and deadlines, lasting
  acknowledgement, what each field says about the run behind it, exactly when clock skew shows,
  exactly-once events, restart, and when the probe asks and what it answers.
- `Timestamps` states acknowledgement on the alarms themselves, with and without a timestamp.
- `SystemLog`, `Client` and `Polling` follow a poll from the choice of transport through paging and
  the endpoint cache to what each category counts.
- `Constants` and `Templates` hold the classification tables, webhook ids and message rendering.
- `Webhooks` is the shared webhook registry under any interleaving of loads and unloads.
- `MakeTargets` is the memoised dependency search of the documentation checker.
- `Severity` and `Wrappers` are the severity order and the usual option and result types.

Times are integer milliseconds. The host clocks, the controller's answers and the stored snapshot are
inputs of the steps that read them.

`dafny verify dfyconfig.toml` checks the whole project.

## Model

| member | source | states |
|---|---|---|
| Dedup.PrunedTableRefinesFullHistory | custom_components/unifi_alerts/coordinator.py:421-446 | over any run with a nondecreasing monotonic clock, every accept/suppress decision taken from the pruned table equals that of a log which never forgets, and the table stays sound for that log |
| Dedup.TableIsTheClosedWindow | custom_components/unifi_alerts/coordinator.py:438-446 | right after an accepted keyed push the table holds a pair exactly when that pair was accepted within the closed 5 s window, with its last acceptance time |
| Dedup.GreedyIsOptimal | custom_components/unifi_alerts/coordinator.py:400-446 | the accepted pushes of a category keep equal pairs 5 s apart, and no other selection of its eligible pushes that does so is larger |
| Dedup.GreedyIsOptimalPerPair | custom_components/unifi_alerts/coordinator.py:424-437 | the same for one (category, key): no selection of its eligible pushes 5 s apart is larger than what was accepted |
| Dedup.RateBound | custom_components/unifi_alerts/coordinator.py:385-390 | any interval of length L accepts at most floor(L / 5 s) + 1 pushes of one pair |
| Dedup.AlertCountCountsAccepted | custom_components/unifi_alerts/coordinator.py:448-472 | over any run alert_count grows by exactly the number of accepted pushes of the category |
| Dedup.StricterMinimumNeverCountsMore | custom_components/unifi_alerts/coordinator.py:400-419 | filtered pushes never enter the table, so raising a category's minimum severity never raises its alert_count over the same events |
| Severity.StricterGateAdmitsLess | custom_components/unifi_alerts/severity.py:81-94 | comparing two settings is exactly comparing what they admit: one lets through all the other does if and only if it is no filter, LOW, or a level no higher |
| Severity.GateExactly | custom_components/unifi_alerts/severity.py:67-118 | an alert is let through if and only if the category has no setting among the words LOW, MEDIUM, HIGH and VERY_HIGH, or its severity, in any case and padding, is none of these words or no earlier than the setting in that order |
| Severity.NormalizeSays | custom_components/unifi_alerts/severity.py:67-78 | a severity normalises to a level exactly when it says that level's word, in any case and padding |
| Histories.PassesExactly | custom_components/unifi_alerts/coordinator.py:172-184 | the gate of pushes and polls, on the texts of setting and severity |
| Histories.ContendsExactly | custom_components/unifi_alerts/coordinator.py:392-421 | a push reaches the dedup test exactly when its category exists, is enabled and does not hold it back |
| Histories.HeldBackChangesOnly | custom_components/unifi_alerts/coordinator.py:400-419 | a push below the setting changes only filtered_count, last_filtered_at and last_webhook_at of its category, whatever was pushed before, and is not broadcast |
| Histories.IgnoredChangesNothing | custom_components/unifi_alerts/coordinator.py:392-437 | a push that is neither applied nor held back changes nothing, the dedup table included, and is not broadcast |
| Histories.BroadcastExactly | custom_components/unifi_alerts/coordinator.py:471-472 | a push is broadcast exactly when it is applied |
| Histories.PushFieldsOfRun | custom_components/unifi_alerts/coordinator.py:401-453 | over any run filtered_count grows by the pushes held back, last_filtered_at is the stamp of the last of them, and last_webhook_at that of the last push held back or applied |
| Histories.OpenCountBetweenPolls | custom_components/unifi_alerts/coordinator.py:454-460 | from any state, through any run without a poll, open_count grows by exactly the applied pushes stamped after the watermark in force when they were applied |
| Histories.LastAlertStep | custom_components/unifi_alerts/coordinator.py:200-206 | an applied push becomes last_alert; a poll that makes a silent category alert sets it to the first of the newest alarms that pass the setting and the watermark; nothing else moves it |
| Histories.AlertingOfRun | custom_components/unifi_alerts/coordinator.py:186-206 | over any run a category alerts at the end exactly when the last applied push, poll that found something or clear of it was not a clear, or there was none and it alerted at the start |
| Histories.DisabledUnpolled | custom_components/unifi_alerts/coordinator.py:170-171 | no poll changes a disabled category |
| TimerSafety.TimersAlwaysSafe | custom_components/unifi_alerts/coordinator.py:658-724 | over any run each category has at most one auto-clear task asleep or awaiting its persist, it is the one kept in _clear_tasks, it is asleep exactly while the category alerts, and it wakes one delay after the last (re)schedule |
| TimerSafety.AlertingHasADeadline | custom_components/unifi_alerts/coordinator.py:660-670 | with tasks woken on time, no category is alerting later than its last (re)schedule plus 60 * clear_timeout seconds |
| TimerSafety.WakingIsExact | custom_components/unifi_alerts/coordinator.py:714-724 | a wake-up clears an alerting category exactly when it is the kept task's and its delay has passed, and that task then awaits its persist; any other wake-up changes nothing |
| TimerSafety.LaneStaysSafe | custom_components/unifi_alerts/coordinator.py:200-206 | one step keeps the timer invariant of a category and moves its wake-up time exactly when the step reschedules |
| TimerSafety.ShutdownStopsTasksExactly | custom_components/unifi_alerts/coordinator.py:726-731 | after a shutdown at any moment no task is asleep or awaiting its persist, and none is through any later run if and only if that run applies no push of the category and no poll that makes it alert |
| TimerSafety.IdleStep | custom_components/unifi_alerts/coordinator.py:660-670 | with no task of a category live, from any state, a step starts one exactly when it applies a push of it or a poll that makes it alert |
| TimerSafety.RunningStep | custom_components/unifi_alerts/coordinator.py:658-724 | over any run, a live task of a category is ended by a manual clear of it or the end of the awaited persist and by nothing else, without a new one being scheduled |
| Acknowledgement.NewestSeenIsMaximum | custom_components/unifi_alerts/models.py:308-314 | last_alarm_received_at is always the maximum received_at over the accepted pushes and eligible polled alarms of this instance |
| Acknowledgement.AlertingHasSeen | custom_components/unifi_alerts/coordinator.py:714-718 | an alerting category has observed an alarm, so an auto-clear never uses the host clock |
| Acknowledgement.AckStep | custom_components/unifi_alerts/models.py:321-334 | a step moves a watermark exactly when it acknowledges the category, to the newest alarm seen, or the host clock if none was |
| Acknowledgement.WatermarkOnlyAdvances | custom_components/unifi_alerts/models.py:321-334 | a clear made with something observed sets the watermark to the newest alarm seen, and it never falls behind that again |
| Acknowledgement.AckedToIsForever | custom_components/unifi_alerts/models.py:321-334 | a category stays acknowledged up to w whatever follows if and only if both its watermark and its newest sighting have reached w |
| Acknowledgement.ClearMovesBack | custom_components/unifi_alerts/models.py:324-334 | the input that moves a watermark back: one clear, with nothing or only older alarms seen by this instance |
| Acknowledgement.ClearKeepsAcknowledgedExactly | custom_components/unifi_alerts/models.py:321-334 | after a further clear no poll of alarms at or before w counts or alerts, if and only if the watermark it leaves, the newest alarm seen or else the host clock, has reached w |
| Acknowledgement.HeldExactlyWhileUndisturbed | custom_components/unifi_alerts/coordinator.py:167-206 | an acknowledged, quiet category keeps watermark, zero count and silence through a whole run exactly when the run applies no push of it, polls no newer eligible alarm of it and does not clear it to another watermark |
| Acknowledgement.CountsWithoutAlertingExactly | custom_components/unifi_alerts/models.py:321-334 | over any run an enabled category counts without alerting exactly from a clear that found a count until the next poll or accepted push |
| Acknowledgement.AgreementStep | custom_components/unifi_alerts/coordinator.py:194-213 | a poll or accepted push makes count and alert agree; any other step keeps their agreement if and only if it is not a clear with a count standing |
| Acknowledgement.ClearedWithACount | custom_components/unifi_alerts/models.py:329-334 | the disagreeing input: one push and one clear leave a count of one and no alert |
| Acknowledgement.PollAgainstWatermark | custom_components/unifi_alerts/coordinator.py:186-206 | a poll counts exactly the eligible alarms newer than the watermark, alerts exactly when it was alerting or counts one, and a new active alert is one it counts |
| Acknowledgement.AcknowledgedStaysAcknowledged | custom_components/unifi_alerts/coordinator.py:167-206 | after a clear made with something observed, no later poll of the instance counts an alert stamped no later than one observed before it, and every strictly newer eligible alert is counted |
| Timestamps.RecordAcknowledgedExactly | custom_components/unifi_alerts/models.py:182-187 | an event of the v2 log observed before such a clear stays behind the watermark whatever follows and whenever it is polled again, if and only if it carries a timestamp |
| Timestamps.AlarmAcknowledgedExactly | custom_components/unifi_alerts/models.py:132-144 | the same for a legacy alarm |
| Timestamps.SurvivesRestartExactlyWithATimestamp | custom_components/unifi_alerts/coordinator.py:636-645 | the same across a snapshot and a restart |
| Timestamps.UnstampedAlarmAlwaysComesBack | custom_components/unifi_alerts/models.py:132-144 | the failing run: an alarm without a timestamp is counted and alerts in every poll, however often it has been polled and cleared before |
| Timestamps.UnstampedAlarmExists | custom_components/unifi_alerts/models.py:132-153 | such an alarm exists for every category and severity setting |
| Timestamps.RecordIsReading | custom_components/unifi_alerts/models.py:182-187 | an event polled from a controller whose clock is off keeps everything but its timestamp, and one without is stamped by the host alone |
| Timestamps.AlarmIsReading | custom_components/unifi_alerts/models.py:132-144 | the same for a legacy alarm |
| ClockSkew.RunMoves | custom_components/unifi_alerts/coordinator.py:217-229 | moving what the controller stamps by d and what the host stamps by h moves the whole state of a category with them, from any start moved alike and with manual clears after a sighting, when d = h or the host stamps no sighting of it; nothing is asked of auto-clears |
| ClockSkew.SkewIsInvisible | custom_components/unifi_alerts/models.py:301-306 | a category fed by alarms with timestamps alone shows the same is_alerting, open_count, alert_count and timers whatever the controller's clock, from a fresh coordinator with manual clears after a sighting |
| ClockSkew.ClearIsSkewProofExactly | custom_components/unifi_alerts/models.py:322-334 | after any run of an instance and a clear, the next poll of alarms with timestamps counts alike for every clock skew and every such poll if and only if something of the category was seen before the clear, no push of it was applied and no eligible alarm of it without a timestamp was polled |
| ClockSkew.UnstampedAlarmShowsSkew | custom_components/unifi_alerts/models.py:132-144 | a later poll of an alarm without a timestamp always shows the skew |
| ClockSkew.SkewShowsAfterAPush | custom_components/unifi_alerts/models.py:118-122 | the failing run: after one push stamped by the host and a clear, a controller that is behind has its next alarm swallowed, and one that is ahead has the pushed alarm counted again |
| ClockSkew.SkewShowsAfterAnUnstampedAlarm | custom_components/unifi_alerts/models.py:132-144 | the same failing run after one poll of an alarm without a timestamp, with no push applied |
| ClockSkew.RunsJudgeAlike | custom_components/unifi_alerts/coordinator.py:392-446 | accept, filter and suppress decisions never depend on received_at |
| EventEntities.FiresExactlyOncePerAcceptedPush | custom_components/unifi_alerts/event.py:63-103 | over any interleaving with repeated notifications the events fired are those of the accepted pushes, one each, in order, and their number is the growth of alert_count |
| EventEntities.ReloadReplaysNothing | custom_components/unifi_alerts/event.py:65-71 | seeded from a restored count, an entity fires nothing if and only if the run accepted no push of its category |
| EventEntities.EventsCarryTheirAlerts | custom_components/unifi_alerts/event.py:81-101 | the k-th event fired carries every field of the k-th applied push, with the level its severity says |
| EventEntities.HandledStep | custom_components/unifi_alerts/coordinator.py:448-472 | each accepted push raises the count by one and is broadcast at once, so the entity never lags by two |
| EventEntities.UniFiAlertEventEntity.constructor | custom_components/unifi_alerts/event.py:51-63 | the counter starts at zero |
| EventEntities.UniFiAlertEventEntity.AddedToHass | custom_components/unifi_alerts/event.py:65-71 | adding the entity seeds the counter from the state and fires nothing |
| EventEntities.UniFiAlertEventEntity.HandleCoordinatorUpdate | custom_components/unifi_alerts/event.py:73-103 | a notification fires one event with the last alert's fields when the count grew and an alert exists, else nothing |
| Probing.ReachableIsSound | custom_components/unifi_alerts/coordinator.py:318-376 | in every reachable state: True means count 0 and no backoff; unknown means count below 5 and no backoff; backoff means False and count 5 |
| Probing.SoundIsReachable | custom_components/unifi_alerts/coordinator.py:318-376 | that shape is exact: every such state is reached by some sequence of probes |
| Probing.DefinitiveIsAbsorbing | custom_components/unifi_alerts/coordinator.py:325-327 | after a True or a 404 False no further probe is sent and the cached value stays; nothing but a definitive answer ends probing |
| Probing.AnswersV2Exactly | custom_components/unifi_alerts/coordinator.py:333-346 | after any uses of the probe, a further use answers v2 if and only if some request actually sent by it or before it was answered 200 |
| Probing.AsksExactly | custom_components/unifi_alerts/coordinator.py:318-376 | a use sends a request unless an earlier one was answered 200 or 404, or the last five in a row all failed and less than an hour has passed since the last of them was answered |
| Probing.ProbeRateBound | custom_components/unifi_alerts/coordinator.py:328-332 | from any reachable state, wall time T with only transient outcomes sends at most 5 * (floor(T / 1 h) + 1) probes |
| Polling.V2PollCountsExactlyWhenCovered | custom_components/unifi_alerts/coordinator.py:281-298 | with at most 1000 events in the window and every event stamped no later than now, open_count after a v2 poll equals the NEW eligible events of the category newer than its watermark and a day ago, for every log, if and only if the category has a watermark, or no enabled one has, or the oldest is at least a day old |
| Polling.OpenCountOfPoll | custom_components/unifi_alerts/coordinator.py:281-316 | on a controller holding this log, whenever the v2 path is taken the poll succeeds without a legacy request and applying it gives exactly the count that law is about |
| Polling.TransportExactly | custom_components/unifi_alerts/coordinator.py:245-279 | after any run of polls, a poll sends no legacy request if and only if some probe sent so far was answered 200 or the legacy paths were exhausted before, and then it sends at least one v2 request |
| Polling.PollFailsExactly | custom_components/unifi_alerts/coordinator.py:231-298 | a poll fails exactly when the transport it takes does, with the same error, and then tallies no key: on v2 when the first page not gone past failed, else when the legacy fetch did |
| Polling.OldestReadsEnabledOnly | custom_components/unifi_alerts/coordinator.py:286-290 | the window's watermark is unique and depends on the watermarks of enabled categories only |
| Polling.UndocumentedExactly | custom_components/unifi_alerts/models.py:205-230 | the keys remembered as warned about are exactly those, of the events seen, that no key lookup resolves |
| Polling.AllOrNoneIsCovered | custom_components/unifi_alerts/coordinator.py:139-145 | the window covers every enabled category when all or none of them have a watermark |
| Polling.MissedEvent | custom_components/unifi_alerts/coordinator.py:291-294 | a concrete log a poll misses: one open event of the last day, newer than the category's own watermark and older than the window's start |
| Polling.V2PollInFlightExactly | custom_components/unifi_alerts/coordinator.py:167-215 | with any pushes, clears and wake-ups landing between choosing the window and applying the poll, the count against the watermark read when it is applied is right for all such steps and every log, if and only if the window cuts nothing off the last day, or the category has a watermark and its newest sighting, if this instance has one, reaches the window's start |
| Polling.AheadEventIsNotFetched | custom_components/unifi_alerts/unifi_client.py:424-431 | the v2 window ends at the host's time: an event of this moment counts when the clocks agree and is not fetched from a controller that is ahead |
| Polling.LegacyPollCountsExactly | custom_components/unifi_alerts/coordinator.py:264-279 | when a poll gathers over the legacy path, one of the site's three paths answered with a list, and applying the poll gives each enabled category the number of unarchived alarms of it in that list at or above its minimum and newer than its watermark |
| Polling.ExhaustionIsForever | custom_components/unifi_alerts/coordinator.py:245-279 | once discovery has exhausted the legacy paths, over any later run no poll sends a legacy request and every one uses v2, whatever the probe says |
| Polling.GatherKeeps | custom_components/unifi_alerts/coordinator.py:264-279 | one poll sends at most 4 legacy and 10 v2 requests, keeps the client's cache sound, never unsets the unavailable flag, and succeeds only through an endpoint it used |
| Polling.PollsConserveEvents | custom_components/unifi_alerts/coordinator.py:276-279 | cumulatively over any run of polls on either transport: events fetched = lengths of the category lists + increments of unrecognised_keys, key by key, + keyless drops |
| Polling.TallyMerges | custom_components/unifi_alerts/coordinator.py:277-278 | folding a per-call tally into the running one in any order is tallying the keys themselves |
| SystemLog.PaginationIsExact | custom_components/unifi_alerts/unifi_client.py:434-502 | against a log of n events in pages of 100 the loop issues max(1, min(10, ceil(n/100))) requests, returns exactly the NEW events of the first min(n, 1000) in order, and warns exactly when n > 1000 |
| SystemLog.RequestsAreBounded | custom_components/unifi_alerts/unifi_client.py:436-500 | whatever the controller answers a fetch costs between one and ten requests, and all ten when it warns |
| SystemLog.FetchesExactly | custom_components/unifi_alerts/unifi_client.py:436-500 | against any answers the fetch stops at the first page that fails, is empty or is the last, or at the tenth; a failed page fails it with that error, else it has the NEW events of every page so far, and warns exactly when the tenth was not the last |
| SystemLog.AbsentTotalIsOnePage | custom_components/unifi_alerts/unifi_client.py:480-489 | an answer without a page total is the only one asked for |
| SystemLog.CategorisationConserves | custom_components/unifi_alerts/coordinator.py:300-316 | every event is in exactly one category list, or is one increment under its own key, or is a keyless drop |
| SystemLog.CategorisedIsExact | custom_components/unifi_alerts/coordinator.py:300-316 | each category's list is its own alerts in order, and a category without alerts has no list |
| SystemLog.TallyCounts | custom_components/unifi_alerts/coordinator.py:305-307 | the tally of a key is its old value plus the number of unclassified events with that key |
| SystemLog.AlertOf | custom_components/unifi_alerts/models.py:182-240 | an alert built from an event carries its resolved category and site, its timestamp or else the time of the poll, and a prefix of each text, at most 255, 64, 255 and 32 characters |
| SystemLog.RecordTexts | custom_components/unifi_alerts/models.py:189-240 | the message is the rendered template, else the title, else the key, else a fixed text, and every text is cut at exactly 255, 64, 255 and 32 characters |
| Client.FetchKeepsTheCacheSound | custom_components/unifi_alerts/unifi_client.py:214-267 | a cached URL is one of the site's three candidates, one that still answers is asked alone and kept even when it answers with an error, a fetch costs one to four requests, and it reports the endpoint unavailable exactly when every path it tried is missing, which leaves no cache entry and sets a flag that is never unset |
| Client.FetchIsFreshDiscovery | custom_components/unifi_alerts/unifi_client.py:221-237 | on a controller that answers steadily, a fetch through a current cache returns what fresh discovery would and leaves the cache current |
| Client.NewestPathFirst | custom_components/unifi_alerts/unifi_client.py:240-267 | with nothing cached the answer is that of list/alarm if it exists, else of alarm, else of stat/alarm, errors included, else the endpoint is unavailable |
| Client.CacheIsInvisible | custom_components/unifi_alerts/unifi_client.py:225-237 | over any run in which the set of served paths does not change, every fetch returns what fresh discovery would |
| Client.UniFiClient.DiscoverAlarmUrl | custom_components/unifi_alerts/unifi_client.py:239-267 | the probe chain equals the specification: first path that is not missing, cached on success, flag on exhaustion |
| Client.UniFiClient.FetchAlarmsOf | custom_components/unifi_alerts/unifi_client.py:214-237 | fetch_alarms equals the specification on result, request count, cache and flag |
| Client.UniFiClient.SortAlarms | custom_components/unifi_alerts/unifi_client.py:512-523 | the loop sorts alarms into category lists and replaces the tally with that of this call |
| Client.UniFiClient.CategoriseAlarms | custom_components/unifi_alerts/unifi_client.py:509-523 | on success lists and a fresh tally of exactly the fetched alarms; on failure the old tally is kept |
| Client.UniFiClient.FetchSystemLogAlarms | custom_components/unifi_alerts/unifi_client.py:409-502 | the page loop equals the recursive specification of the paged fetch, failures included |
| Client.AlertOfAlarm | custom_components/unifi_alerts/models.py:125-154 | a legacy alarm becomes a non-empty message of the given category and its site, its timestamp or else the time of the poll, every text clipped to 255, 64, 255 and 32 characters |
| Client.AlarmTexts | custom_components/unifi_alerts/models.py:126-154 | the message is msg, else message, else the key, else a fixed text; the device is the device's name, else the access point's; the severity is the severity, else the subsystem; every text is cut at exactly its length |
| Persistence.SnapshotRoundTrip | custom_components/unifi_alerts/coordinator.py:529-593 | restoring a built snapshot into a fresh coordinator, whatever is enabled now, reproduces watermark, count, last alert (apart from raw) and last webhook time of every category |
| Persistence.EntryRoundTrip | custom_components/unifi_alerts/coordinator.py:551-592 | the same for one category's entry |
| Persistence.RestoreIsStable | custom_components/unifi_alerts/coordinator.py:541-572 | restore, build, restore equals restore up to raw on every payload whose entries restore: legacy strings, dicts, corrupt timestamps |
| Persistence.AlertRoundTrip | custom_components/unifi_alerts/models.py:242-277 | from_dict undoes to_dict, apart from raw, if and only if the severity is within its 32 characters |
| Persistence.ClippedRun | custom_components/unifi_alerts/models.py:260-277 | every last alert of a run over constructed alerts is within that limit, so it always round-trips |
| Persistence.AcknowledgementSurvivesRestart | custom_components/unifi_alerts/coordinator.py:636-645 | after a clear made with something observed, a snapshot at any later step and a restart, every run of the new instance that only polls alerts with stamps observed before that clear, without a clear or applied push of the category, keeps open_count 0, no alert and the watermark |
| Persistence.RestoreSucceedsExactly | custom_components/unifi_alerts/coordinator.py:541-572 | a restore goes through if and only if every stored dict of a known category has a count that is a number and a last alert that is a dict or null; anything else invalid is skipped |
| Persistence.OneCorruptEntryStopsAll | custom_components/unifi_alerts/coordinator.py:558-564 | one last alert that is a text makes the whole restore fail, whatever else is stored, while a text that is no timestamp is skipped |
| Persistence.EntryBranches | custom_components/unifi_alerts/coordinator.py:545-572 | what each kind of stored entry does: a text is a watermark if it parses and is skipped if not, a dict field that is missing or no timestamp keeps what was there, an absent count is zero, and an entry of any other type changes nothing |
| Persistence.EmptyAlertRestores | custom_components/unifi_alerts/models.py:259-277 | a stored alert without fields has empty texts and the time of the restore |
| Persistence.UnaryIsFaithful | custom_components/unifi_alerts/coordinator.py:585-591 | a timestamp encoding of the kind the round trips ask for exists |
| Templates.UnparseOfSegments | custom_components/unifi_alerts/models.py:52-75 | segmenting a template into literals and tokens is lossless |
| Templates.SubstituteIsAssemble | custom_components/unifi_alerts/models.py:71-75 | the output is the concatenation of literals and replaced tokens |
| Templates.TokenReplacedInPlace | custom_components/unifi_alerts/models.py:59-62 | a token anywhere in any template is replaced on its own, whatever stands around it, and its value is inserted as is, never expanded |
| Templates.TokenFreeTextUnchanged | custom_components/unifi_alerts/models.py:75-75 | text without a complete token passes through unchanged |
| Templates.ParameterShown | custom_components/unifi_alerts/models.py:65-75 | a token shows the parameter's name, else its id, else its key, a scalar shows its text, and a token without a parameter stays as it is |
| Templates.UnknownTokensVerbatim | custom_components/unifi_alerts/models.py:71-73 | a template none of whose tokens is a parameter renders to itself |
| Templates.SplitAtBrace | custom_components/unifi_alerts/models.py:75-75 | substitution splits in front of any opening brace, so no match spans one |
| Templates.MatchAtIsExact | custom_components/unifi_alerts/models.py:75-75 | a match stands exactly in front of an opening brace, a non-empty brace-free name and a closing brace, and that name is the one matched |
| Constants.TwoStagesAreOne | custom_components/unifi_alerts/models.py:197-222 | resolving by key alone and then by enum alone equals one classify_event_key call, for every key and enum |
| Constants.PrefixScanIgnoresOrder | custom_components/unifi_alerts/const.py:372-374 | overlapping prefixes agree, so scanning any reordering of the legacy table gives the same category |
| Constants.NumericVariantKeepsCategory | custom_components/unifi_alerts/const.py:347-371 | appending _<digits> to any v2 table key never changes its category, whatever the enum |
| Constants.StripUndoesSuffix | custom_components/unifi_alerts/const.py:352-352 | stripping undoes appending a numeric suffix on any text, and removes only one |
| Constants.ClassifiesIntoKnownCategories | custom_components/unifi_alerts/const.py:355-375 | classification returns one of the seven categories or the empty string |
| Constants.ClassifiesByTable | custom_components/unifi_alerts/const.py:355-375 | a key of a v2 entry, with or without a numeric suffix, has that entry's category; else the first legacy entry it starts with decides; else the enum's entry; else the result is empty |
| Constants.EachTableClassifies | custom_components/unifi_alerts/const.py:364-375 | a legacy key, an enum and an unknown enum classified, by their texts |
| Constants.SystemLogKeysRead | custom_components/unifi_alerts/const.py:263-309 | every v2 entry has the category its key reads as |
| Constants.SomeEventOf | custom_components/unifi_alerts/const.py:263-328 | every category is the resolution of some event |
| Constants.WebhookIdsAreDistinct | custom_components/unifi_alerts/const.py:341-344 | the id determines suffix and category, for all suffixes including the empty one |
| Constants.WebhookIdForm | custom_components/unifi_alerts/const.py:335-344 | the text of an id, with and without a suffix |
| Constants.TrailingDigits | custom_components/unifi_alerts/const.py:352-352 | the longest run of digits the text ends with |
| Constants.ScanIsFirstMatch | custom_components/unifi_alerts/const.py:372-374 | the scan takes the first entry whose prefix the key starts with, and gives nothing only if there is none |
| Webhooks.ManagersAreIsolated | custom_components/unifi_alerts/webhook_handler.py:96-148 | over any interleaving of loads and unloads of entries with distinct suffixes, in a registry where no other integration holds their ids, no registration fails, and the registry is what was there before and the loaded managers' enabled categories, each bound to its owner |
| Webhooks.IsolationNeedsDistinctSuffixes | custom_components/unifi_alerts/const.py:330-337 | isolation over every interleaving holds if and only if suffixes are distinct and nobody else holds an id of theirs |
| Webhooks.TakenIdLosesCategory | custom_components/unifi_alerts/webhook_handler.py:125-134 | an id another integration holds is a category its entry never gets |
| Webhooks.SharedSuffixLosesCategories | custom_components/unifi_alerts/webhook_handler.py:125-134 | with a shared suffix the second entry loses every category both enable |
| Webhooks.RegistersEverything | custom_components/unifi_alerts/webhook_handler.py:110-142 | with none of its ids taken a manager registers each enabled category and leaves the rest of the registry alone |
| Webhooks.WebhookManager.RegisterEvery | custom_components/unifi_alerts/webhook_handler.py:96-142 | the loop equals the specification, a taken id being skipped |
| Webhooks.WebhookManager.UnregisterEvery | custom_components/unifi_alerts/webhook_handler.py:144-148 | exactly the manager's own ids leave the registry and its list is emptied |
| MakeTargets.ExactExactlyWithoutMutualDependency | scripts/validate_docs.py:219-252 | for any dependencies and any iteration order, the cached sets are the union over reachable targets for every choice of recipes if and only if no two distinct targets depend on each other |
| MakeTargets.CapabilitiesAreSound | scripts/validate_docs.py:219-252 | on every graph, cyclic or not, a cached set holds only capabilities of reachable targets |
| MakeTargets.CapabilitiesAreExact | scripts/validate_docs.py:236-252 | without mutual dependencies each cached set is exactly what reachable targets implement, in any iteration order |
| MakeTargets.FirstTargetIsExact | scripts/validate_docs.py:236-248 | the first target resolved is exact on any graph, cycles included |
| MakeTargets.MarkedIsWrongSomewhere | scripts/validate_docs.py:239-240 | with a mutual dependency two telling recipes make the cache wrong for some target, in every iteration order |
| MakeTargets.CapabilityResolver.ResolveOne | scripts/validate_docs.py:236-248 | the search on the shared cache and visiting set terminates on every graph and equals the specification |
| MakeTargets.CapabilityResolver.TargetCapabilities | scripts/validate_docs.py:250-252 | the cache after resolving every target in turn |
| MakeTargets.ContainsSubsequence | scripts/validate_docs.py:107-115 | true if and only if the non-empty needle is a contiguous run of the haystack |
| MakeTargets.DirectExactly | scripts/validate_docs.py:224-234 | a recipe implements each of the three capabilities exactly when one of its lines has that script's name in it, in any case |
| Models.CategoryState.constructor | custom_components/unifi_alerts/models.py:281-306 | a new category has nothing seen, counted or cleared |
| Models.CategoryState.ApplyAlert | custom_components/unifi_alerts/models.py:308-314 | the whole new state after an accepted alert |
| Models.CategoryState.RecordFiltered | custom_components/unifi_alerts/models.py:316-319 | a filtered push moves only filtered_count and last_filtered_at |
| Models.CategoryState.Clear | custom_components/unifi_alerts/models.py:321-334 | the whole new state after a clear: watermark from the newest alarm seen, else the host clock; open_count kept |
| Machine.MostRecentIsFirst | custom_components/unifi_alerts/coordinator.py:201-201 | max keeps the first of the newest alarms |
| Machine.MostRecent | custom_components/unifi_alerts/coordinator.py:201-201 | the newest of the alarms |
| Machine.Eligible | custom_components/unifi_alerts/coordinator.py:172-184 | exactly the alarms at or above the category's minimum |
| Machine.Unacknowledged | custom_components/unifi_alerts/coordinator.py:188-193 | exactly the alarms newer than the watermark, all of them without one |
| Machine.Run | custom_components/unifi_alerts/coordinator.py:95-99 | no step adds or removes a category or changes what is enabled |
| Coordinator.UniFiAlertsCoordinator.constructor | custom_components/unifi_alerts/coordinator.py:70-128 | a fresh coordinator with one state per category, enabled as configured, and nothing probed |
| Coordinator.UniFiAlertsCoordinator.PushAlert | custom_components/unifi_alerts/coordinator.py:380-472 | push_alert is one push step of the machine, and notifies exactly when the push is accepted |
| Coordinator.UniFiAlertsCoordinator.Receive | custom_components/unifi_alerts/coordinator.py:400-469 | the push path of an enabled category: its verdict, its new state, its table |
| Coordinator.UniFiAlertsCoordinator.Deduplicate | custom_components/unifi_alerts/coordinator.py:424-446 | the dedup test and the pruned, updated table |
| Coordinator.UniFiAlertsCoordinator.ScheduleClear | custom_components/unifi_alerts/coordinator.py:660-670 | the kept task is cancelled if still running and replaced by a new sleeping one; no other category is touched |
| Coordinator.UniFiAlertsCoordinator.CancelClear | custom_components/unifi_alerts/coordinator.py:708-712 | the kept task is cancelled if still running and forgotten; no other category is touched |
| Coordinator.UniFiAlertsCoordinator.AutoClear | custom_components/unifi_alerts/coordinator.py:714-718 | a wake-up is one step of the machine and asks for a persist exactly when it cleared |
| Coordinator.UniFiAlertsCoordinator.FinishAutoClear | custom_components/unifi_alerts/coordinator.py:719-724 | the end of the awaited persist ends the task |
| Coordinator.UniFiAlertsCoordinator.Shutdown | custom_components/unifi_alerts/coordinator.py:726-731 | every kept task is cancelled and forgotten; nothing else changes |
| Coordinator.UniFiAlertsCoordinator.TrackNewestSeen | custom_components/unifi_alerts/coordinator.py:217-229 | the newest sighting advances to the newest of these alarms, if there are any |
| Coordinator.UniFiAlertsCoordinator.PollCategory | custom_components/unifi_alerts/coordinator.py:169-206 | applying polled alarms to one enabled category |
| Coordinator.UniFiAlertsCoordinator.ApplyPoll | custom_components/unifi_alerts/coordinator.py:167-215 | applying a fetched poll, both loops, in any iteration order, is one poll step of the machine |
| Coordinator.UniFiAlertsCoordinator.ProbeHasSystemLog | custom_components/unifi_alerts/coordinator.py:318-376 | the cached, backed-off probe equals its specification |
| Coordinator.UniFiAlertsCoordinator.OldestWatermark | custom_components/unifi_alerts/coordinator.py:286-294 | the oldest watermark over enabled categories, none if none has one |
| Coordinator.UniFiAlertsCoordinator.SortEvents | custom_components/unifi_alerts/coordinator.py:300-316 | the loop sorts, tallies and remembers undocumented keys as specified |
| Coordinator.UniFiAlertsCoordinator.MergeUnrecognised | custom_components/unifi_alerts/coordinator.py:277-278 | the running tally after a legacy poll, in any iteration order |
| Coordinator.UniFiAlertsCoordinator.FetchViaV2 | custom_components/unifi_alerts/coordinator.py:281-316 | the v2 branch equals its specification from window to lists |
| Coordinator.UniFiAlertsCoordinator.FetchCategorised | custom_components/unifi_alerts/coordinator.py:231-316 | the choice of transport and its outcome equal the specification, the cached state included |
| Coordinator.UniFiAlertsCoordinator.UpdateData | custom_components/unifi_alerts/coordinator.py:132-215 | a poll with nothing landing in between: a failed fetch leaves every category as it was |
| Coordinator.UniFiAlertsCoordinator.ClearCategory | custom_components/unifi_alerts/coordinator.py:636-645 | clearing one category, enabled or not, is one clear step, and the snapshot handed to the store is of the cleared state |
| Coordinator.UniFiAlertsCoordinator.ClearEvery | custom_components/unifi_alerts/coordinator.py:647-656 | clearing every enabled category in any order is one step, with one snapshot of the cleared state |
| Coordinator.UniFiAlertsCoordinator.BuildPersistData | custom_components/unifi_alerts/coordinator.py:574-593 | the snapshot of the current state |
| Coordinator.UniFiAlertsCoordinator.RestoreWatermarks | custom_components/unifi_alerts/coordinator.py:529-572 | restoring succeeds exactly when every entry does, whatever the iteration order, and then gives the specified state |
| Coordinator.UniFiAlertsCoordinator.RestoreState | custom_components/unifi_alerts/coordinator.py:545-572 | one entry restored, or the error that escapes |

## Left out

- HTTP, TLS, status codes and JSON decoding: the controller is a function from requests to answers; each redirect, certificate, status and body error is one of three failures.
- Webhook bodies, tokens and `from_webhook_payload`: a push starts from a built alert.
- Home Assistant entities other than the event entity, rollups, `webhook_health`, diagnostics, device and entity registries, translations, logging and the issue registry.
- Config flow, options, version migration, services, and setup beyond restore-before-first-poll.
- `validate_connectivity`, `_site_exists` and `fetch_controller_version`.
- `scripts/bump_version.py` and every script other than `validate_docs.py`; in the latter, Makefile parsing and the markdown scans.
- Naive datetimes, ISO text and time zones: timestamps are integer milliseconds and the stored form is any encoding that decodes back to the same instant.
- Unicode case, whitespace and digits, and `$` before a final newline: text is treated as ASCII without a final newline.
- JSON reals, and non-string values in text fields of a stored alert: they pass through an abstract `str` that keeps strings as they are.
- `Store` debouncing: a snapshot is taken at some later step and may fail; saving is an input of the next restore.
- A persist that raises after a clear: the clear itself stands, which is what the theorems use; the raised error is not modelled.
- asyncio tasks are values kept per category in creation order, so sharing a task object between two holders is not expressible; cancelling a task takes effect at once, where asyncio delivers it when the task would run next, before which it does nothing.
- Two polls of one coordinator overlapping: a poll is applied before the next one is fetched; every other step may land in between.
- A poll reads the host clock once; the code reads it for the lookback floor and again in the client, a few microseconds later.
- The probe raising instead of answering: the guard around it says itself that this should not happen.
- A setup that a corrupt stored entry aborts half-way: the restore is reported as failed and the half-restored object is not described.
- `async_clear_all` reads the host clock once for all categories; the code reads it for each category in turn, microseconds apart.
- Iteration order of dicts is any order, which covers Python's insertion order.
- Acknowledgement.AcknowledgedStaysAcknowledged: is about enabled categories, since polls skip the others.
- Client.CacheIsInvisible: starts from a client that has cached nothing for the site.

Where code and documentation disagree the model follows the code:

- `_async_update_data` promises that recent alarms of every enabled category are always reachable. A never-cleared category loses events as soon as another category is cleared less than a day ago; the exact condition and a missed event are proved.
- `clear()` keeps `open_count`, so a category shows a count without alerting from a clear that found one until the next poll or accepted push, and only then (`Acknowledgement.CountsWithoutAlertingExactly`, `Acknowledgement.ClearedWithACount`).
- `async_clear_category` does not look at `enabled`; `async_clear_all` does.
- `last_cleared_at` may move back: a clear with nothing seen stamps the host clock, and `last_alarm_received_at` is not persisted. The moving clear and the exact condition for never moving back are proved (`Acknowledgement.ClearMovesBack`, `Acknowledgement.AckedToIsForever`).
- Anchoring the watermark to the newest alarm seen is meant to make counting immune to clock skew, with pushes as the documented exception. It is immune exactly where everything seen of a category carried the controller's timestamp; after a push, or a polled alarm without a timestamp, it is not (`ClockSkew.ClearIsSkewProofExactly`, `ClockSkew.SkewShowsAfterAPush`, `ClockSkew.SkewShowsAfterAnUnstampedAlarm`). These laws compare polls that return the same alarms; on the v2 path the window ends at the host's time, so a controller that is ahead also returns fewer (`Polling.AheadEventIsNotFetched`).
- A clear is meant to acknowledge everything seen so far. An alarm without a timestamp is stamped afresh in every poll, so it counts and alerts again after every clear (`Timestamps.UnstampedAlarmAlwaysComesBack`); every other alarm stays acknowledged (`Timestamps.RecordAcknowledgedExactly`, `Timestamps.AlarmAcknowledgedExactly`).
- `async_shutdown` does not call the method it overrides, so a poll may still be applied after it and start an auto-clear task again (`TimerSafety.ShutdownStopsTasksExactly`).
- Restoring skips invalid entries with a warning, but a count that is no number or a last alert that is no dict escapes and aborts the setup (`Persistence.RestoreSucceedsExactly`).
- The memoised search over make targets is incomplete on mutual dependencies, as proved; the repository's own Makefile has no such pair.
