# Behaviour analytics engine — a Dafny model

This project models the analytics core of a small animal-behaviour annotation
service. The service keeps an append-only, in-memory list of behaviour events.
Each event records an animal, a behaviour, a session, a camera, a start and an
end time, and a confidence. The model covers:

- **the aggregation engine**:
  - selecting the events of a list of sessions;
  - minute bucketing;
  - the analytics summary: per-behaviour counts and durations, per-behaviour
    minute trendlines, a per-camera minute heatmap, and heatmap metadata in
    three scaling modes;
  - the baseline comparison of two sessions: percent deltas and ±50% flags;
  - the proportion and colour-band part of the diversity index;
- **event ingestion**, as a state transition on (store, outbox) with 422/409
  errors, and the 500 it ends in when a live-update client is connected;
- **the analytics endpoints**: how the summary endpoint chooses between a report
  and a session list, and the two pass-through endpoints;
- **the CSV export of a report**, as the sequence of four-cell rows it writes;
- **the seeded data**, and the comparison of session s-100 with its baseline
  s-101 on it.

Modules, in dependency order:

| module | file | what it holds |
|---|---|---|
| `Wrappers` | wrappers.dfy | `Option`, `Result`, `HttpError` |
| `Dicts` | dicts.dfy | Python's insertion-ordered dicts as association lists: `Get`, `Put`, `Update` |
| `Grouping` | grouping.dfy | `Select` and `SumW` as reference definitions. `Tally` (`d[k] = d.get(k, 0) + w`) and `Grid` (`d[r][c] += 1`) are the source's loops, proved equal to the references |
| `Events` | events.dfy | the event record, `MinuteBucket`, `EventsForSessions` |
| `Trendlines` | trendlines.dfy | sorting a behaviour's (minute, count) series |
| `Decimal` | decimal.dfy | `str(int)` for metadata values |
| `Summary` | summary.dfy | `ComputeSummary` and its properties |
| `Baseline` | baseline.dfy | `CompareSessions` and its properties |
| `Diversity` | diversity.dfy | `DiversityIndex` over an abstract entropy ratio |
| `Ingest` | ingest.dfy | `IngestEvent` |
| `AnalyticsRoutes` | analytics_routes.dfy | the three analytics endpoints |
| `Exporters` | exporters.dfy | `ExportReportCsv` |
| `Seed` | seed.dfy | the seeded store and the s-100/s-101 comparison |

## Representation choices

- **Timestamps** are whole seconds (`int`).
  - An event's duration is `end - start`. It is negative when the end comes
    first: ingestion never checks the order.
  - The minute bin is `ts - ts % 60`, an integer instead of the ISO text. For
    UTC timestamps with one offset throughout, both sort the same way.
- **Dicts** are sequences of (key, value) pairs, so iteration order is part of
  the model. The CSV row order depends on it.
- **Percentages** are exact reals.
- **Baseline iteration order.** The baseline comparison walks a Python `set`,
  whose iteration order the program does not fix. `order` is therefore a
  parameter: any duplicate-free listing of the set.
- **Flags** are the datatype `Increase(behaviour, pct)` / `Decrease(behaviour, pct)`,
  holding the unrounded percentage the source tests.
- **Diversity.** The entropy `H` and `H_max = ln n` are not computed. The ratio
  `H / H_max` is a parameter, `ratio`. It is used exactly where the source
  divides by a positive `H_max`, i.e. when more than one behaviour has positive
  time. The logarithm is kept only where it fails: when a session's durations
  sum to a negative total while some behaviour's summed duration is positive,
  that behaviour's share is negative, `math.log` raises, and the request ends
  in a 500. A negative total with no positive behaviour keeps no share, so
  nothing raises.
- **Connected clients.** `ingest_event` is a plain function, so the web
  framework runs it on a worker thread with no running event loop. There the
  broadcast's `asyncio.create_task` raises as soon as one client is connected.
  The number of connected clients is the parameter `clients` of the ingest.

## Model

| member | source | states |
|---|---|---|
| Events.MinuteBucket | backend_fastapi/src/api/models.py:188-189 | the bin of `ts` is a whole minute `b` with `b <= ts < b + 60` |
| Events.BucketUnique | backend_fastapi/src/api/models.py:188-189 | the whole minute within the 60 seconds up to `ts` is unique, so it is the bin |
| Events.BucketIdempotent | backend_fastapi/src/api/models.py:188-189 | binning a bin gives the same bin |
| Events.BucketMonotone | backend_fastapi/src/api/models.py:188-189 | binning keeps the order of timestamps |
| Events.EventsForSessionsMembers | backend_fastapi/src/api/models.py:184-185 | an event is selected iff it is stored and its session is listed |
| Events.EventsForSessionsAppend | backend_fastapi/src/api/models.py:184-185 | selection keeps store order: selecting from a concatenation concatenates the selections |
| Events.EventsForSessionsSetOnly | backend_fastapi/src/api/models.py:185 | only the set of ids matters; repeating or reordering session ids selects the same events, each once |
| Events.EventsForSessionsLength | backend_fastapi/src/api/models.py:184-185 | the selection is no longer than the store; all of it when every session is listed, none when none is |
| Grouping.TallyGet | backend_fastapi/src/api/models.py:210-213 | the `d[k] = d.get(k, 0) + w` loop leaves at `k` the sum of `w` over the events with key `k` |
| Grouping.TallyKeyOrder | backend_fastapi/src/api/models.py:210-213 | the loop's keys are the distinct event keys in order of first occurrence |
| Grouping.TallySum | backend_fastapi/src/api/models.py:210-213 | the loop's values add up to the total weight of all events |
| Grouping.GridRow | backend_fastapi/src/api/models.py:215-224 | row `r` of the nested `d[r][c] += 1` loop is the count tally of `r`'s own events by column, in the same key order |
| Grouping.GridTotal | backend_fastapi/src/api/models.py:221-224 | the nested loop's cells add up to the number of events |
| Trendlines.SortPointsSpec | backend_fastapi/src/api/models.py:226-229 | sorting a series permutes its points, keeps its sum, and gives strictly ascending minutes when the minutes are distinct |
| Trendlines.SortTrendlinesSpec | backend_fastapi/src/api/models.py:226-229 | the sorted trendlines keep the behaviours in order, each with its own series sorted |
| Decimal.IntToString | backend_fastapi/src/api/models.py:243-247 | `str(i)`: a minus sign exactly for negatives, then digits without a leading zero that read back as the magnitude |
| Decimal.NatToStringRoundTrip | backend_fastapi/src/api/models.py:243-247 | reading back the decimal text of `n` gives `n` |
| Decimal.NatToStringInjective | backend_fastapi/src/api/models.py:243 | different numbers give different texts |
| Summary.MaxOr | backend_fastapi/src/api/models.py:233 | `max(vals) if vals else 1`: the default for an empty list, otherwise a member no smaller than any member |
| Summary.SummaryCounts | backend_fastapi/src/api/models.py:204-211 | a behaviour's count is its number of selected events; the key is present iff it has some; counts add up to the number of selected events |
| Summary.SummaryDurations | backend_fastapi/src/api/models.py:212-213 | a behaviour's duration is the sum of `end - start` over its events; durations add up to the total |
| Summary.SummarySameKeys | backend_fastapi/src/api/models.py:210-229 | counts, durations and trendlines list the same behaviours in order of first occurrence |
| Summary.SummaryTrendline | backend_fastapi/src/api/models.py:215-229 | a trendline is strictly ascending by minute; a point is present iff it is a minute with `c >= 1` events of the behaviour starting in it; counts sum to the behaviour's count |
| Summary.SummaryHeatmap | backend_fastapi/src/api/models.py:221-224 | cameras in order of first occurrence; a cell is present iff it counts the camera's events starting in that minute; rows sum to the camera's events and all cells to the selected events |
| Summary.SummaryEchoes | backend_fastapi/src/api/models.py:234-250 | the session list is echoed, and the metadata starts with the requested scaling whatever it is |
| Summary.HeatmapMetaFixed | backend_fastapi/src/api/models.py:235-236 | fixed scaling: min "0", max "10", palette viridis |
| Summary.SessionPeaksSpec | backend_fastapi/src/api/models.py:239-242 | one peak per distinct requested session, in first-request order, each 1 |
| Summary.HeatmapMetaSession | backend_fastapi/src/api/models.py:237-244 | session scaling: after the mode, `session_max_<s>` = "1" per distinct requested session (with or without events), then palette magma; no min or max key |
| Summary.HeatmapMetaAuto | backend_fastapi/src/api/models.py:232-247 | any other mode: min "0", max the largest cell (or "1" with no events), palette plasma |
| Baseline.PctDeltaThresholds | backend_fastapi/src/api/models.py:283-291 | the ±50% tests in whole numbers (`2t >= 3b`, `2t <= b`), the zero-baseline rule (100 if the target is positive, else 0), and when a delta is 0 |
| Baseline.AggSpec | backend_fastapi/src/api/models.py:262-270 | a session's aggregate maps each behaviour to its count and summed duration, with keys exactly the behaviours it shows |
| Baseline.ComparisonKeys | backend_fastapi/src/api/models.py:272-293 | the deltas are keyed once each by the union of both sessions' behaviours, and the ids are echoed |
| Baseline.ComparisonDeltas | backend_fastapi/src/api/models.py:279-285 | each behaviour's deltas are the percent changes of its count and summed duration, with counts and durations each following the zero-baseline rule |
| Baseline.ComparisonFlags | backend_fastapi/src/api/models.py:287-291 | an increase flag iff the count change is at least +50%, a decrease flag iff at most -50%, carrying that percentage; at most one flag per behaviour |
| Baseline.FlagsIgnoreDurations | backend_fastapi/src/api/models.py:287-291 | the flags depend on the counts alone |
| Baseline.SelfComparison | backend_fastapi/src/api/models.py:260-293 | comparing a session with itself gives all-zero deltas and no flags |
| Diversity.BandThresholds | backend_fastapi/src/api/models.py:313-322 | low below 0.33, medium from 0.33 below 0.66, high from 0.66 |
| Diversity.BandMonotone | backend_fastapi/src/api/models.py:313-322 | a larger index never falls into a lower band |
| Diversity.SupportShares | backend_fastapi/src/api/models.py:301-307 | on success, the support holds exactly the behaviours with positive summed duration, each with its share of the total |
| Diversity.SupportSumsToOne | backend_fastapi/src/api/models.py:302-307 | when none of the session's events runs backwards and some time was spent, the index succeeds and the shares sum to 1 |
| Diversity.NoEvents | backend_fastapi/src/api/models.py:302-316 | a session without events succeeds: empty support, one behaviour counted, index 0, low:red |
| Diversity.DiversityFails | backend_fastapi/src/api/models.py:302-309 | a 500 exactly when the session's durations sum below zero while some behaviour's sum is positive, since `math.log` then meets a negative share |
| Diversity.ObservedAndBand | backend_fastapi/src/api/models.py:307-322 | on success, `n` is the number of behaviours with positive summed duration, or 1 if none; with at most one the index is 0 and the band low:red, otherwise the ratio's band and interpretation |
| Ingest.IngestOutcome | backend_fastapi/src/api/routes/ingest.py:21-43 | success iff the confidence is in [0, 1], the id is new and no client is connected; 422 or 409 with store and outbox unchanged; with clients connected, a 500 after the event is stored |
| Ingest.IngestAppends | backend_fastapi/src/api/routes/ingest.py:33-41 | an accepted event is appended last; without clients exactly two messages follow, `event` then `analytics_delta`, and with clients none |
| Ingest.IngestKeepsIdsUnique | backend_fastapi/src/api/routes/ingest.py:31-34 | ingestion keeps the stored ids unique |
| Ingest.IngestDelta | backend_fastapi/src/api/routes/ingest.py:34-41 | without clients, the delta is the session-scaled summary of the event's session after the append; its count for the event's behaviour is one more than before |
| AnalyticsRoutes.ReportTakesPrecedence | backend_fastapi/src/api/routes/analytics.py:33-42 | a non-empty report id decides: 404 if unknown, else the report's sessions, even an empty list, whatever the session list says |
| AnalyticsRoutes.SessionListUsed | backend_fastapi/src/api/routes/analytics.py:37-42 | without a report id, the listed sessions are summarised; no list or an empty one is 400 |
| AnalyticsRoutes.SummaryRouteStatus | backend_fastapi/src/api/routes/analytics.py:26-42 | 422 iff the scaling mode is not fixed, auto or session; then 404 iff the report is unknown; then 400 iff no sessions are listed; a success echoes the sessions and the scaling, auto by default |
| AnalyticsRoutes.BaselineRoutePassThrough | backend_fastapi/src/api/routes/analytics.py:51-53 | the endpoint answers with the comparison of exactly the two requested sessions; a missing id is 422 |
| AnalyticsRoutes.DiversityRoutePassThrough | backend_fastapi/src/api/routes/analytics.py:62-64 | the endpoint answers with the index of exactly the requested session; a missing id is 422, and a negative total duration with some positive behaviour is 500 |
| Exporters.RowsOrder | backend_fastapi/src/api/utils/exporters.py:26-48 | header first, then counts, durations, trendlines, heatmap and metadata rows, in that order |
| Exporters.RowsSubKeys | backend_fastapi/src/api/utils/exporters.py:28-48 | count, duration and metadata rows have an empty sub-key; trendline and heatmap rows a minute |
| Exporters.RowsCount | backend_fastapi/src/api/utils/exporters.py:26-48 | rows = 1 + counts + durations + trendline points + heatmap cells + metadata entries |
| Exporters.RowsMembers | backend_fastapi/src/api/utils/exporters.py:26-48 | a row is written iff it is the header or belongs to the block its own section names; no row belongs to two blocks, and every non-header row has one of the five sections |
| Exporters.ExportUsesAuto | backend_fastapi/src/api/utils/exporters.py:21-48 | the export summarises in auto scaling and ends with the rows scaling=auto, min=0, max, palette=plasma |
| Exporters.ExportCounts | backend_fastapi/src/api/utils/exporters.py:21-30 | a count row is written iff it names a behaviour of the report's sessions with its positive event count |
| Exporters.ExportDurations | backend_fastapi/src/api/utils/exporters.py:21-34 | a duration row is written iff it names a behaviour of the report's sessions with its summed duration |
| Exporters.ExportTrendlines | backend_fastapi/src/api/utils/exporters.py:21-39 | a trendline row (behaviour, minute, c) is written iff `c >= 1` of the behaviour's events start in that minute |
| Exporters.ExportTrendlineOrder | backend_fastapi/src/api/utils/exporters.py:36-39 | a behaviour's trendline rows, in file order, are its sorted trendline written point by point, so their minutes strictly ascend |
| Exporters.ExportHeatmap | backend_fastapi/src/api/utils/exporters.py:21-44 | a heatmap row (camera, minute, c) is written iff `c >= 1` of the camera's events start in that minute |
| Exporters.ExportRowCount | backend_fastapi/src/api/utils/exporters.py:21-48 | rows = 1 + 2 per behaviour + trendline points + heatmap cells + 4 metadata rows |
| Seed.SeedStoreSeeded | backend_fastapi/src/api/models.py:143-160 | in the seeded store, s-100 and s-101 hold exactly their 24 events each, in order |
| Seed.SeedDeltas | backend_fastapi/src/api/models.py:143-155 | s-100 against s-101: feed (0, -20), rest (0, 10), groom (100, 400/3), play (-50, -125/3) as (count %, duration %) |
| Seed.SeedFlags | backend_fastapi/src/api/models.py:143-155 | s-100 against s-101 flags exactly an increase in grooming (+100) and a decrease in play (-50) |
| Seed.SeedComparison | backend_fastapi/src/api/models.py:143-179 | on the seeded store itself: feeding count delta 0, grooming +100 with an increase flag, play -50 with a decrease flag, and no other flag |
| Seed.SeedReportSummary | backend_fastapi/src/api/models.py:162-176 | against the seeded reports, the summary endpoint summarises s-100 and s-101 for r-1 and s-200 for r-2, whatever sessions are listed; any other report id is 404 |

## Left out

- **Broadcasting**: the WebSocket endpoint, the heartbeat, pruning of failed
  clients and the delivery of messages (sockets.py) are concurrency and I/O.
  With no client connected, a broadcast is a message appended to the outbox.
  With one or more connected, the model keeps only the failure of the first
  `asyncio.create_task`: the event stays stored, no message is appended, and
  the reply is a 500.
- **Rounding**: `round(x, 2)` of the deltas, `round(x)` in the flag text and
  `round(x, 4)` of the diversity figures are not modelled. Deltas and flags
  hold exact percentages. The flag text is not built.
- **Entropy**: `H = -Σ p ln p` and `H_max = ln n` are not computed, because
  logarithms are transcendental. They appear only as the parameter `ratio`.
- **Float time arithmetic**: sub-second timestamps and `total_seconds()` on
  floats. Timestamps are whole seconds and durations are integers.
- **Text rendering**: ISO rendering of minute bins; the CSV text itself
  (quoting, line ends, number formatting); the rounding of durations in the
  export.
- **JSON export**: `export_report_json` packs a summary with `model_dump()`
  and adds no logic.
- **Framework details**:
  - The pydantic payload schema is reduced to the confidence bound, and a
    missing query parameter to a 422.
  - Event metadata is carried as a string-to-string map.
  - App setup, CORS and OpenAPI generation are left out.
- **Other endpoints**: the animal, behaviour and report lookup endpoints are
  plain dict lookups with a 404 and are left out. The frontend is not part of
  this model.
- **Seed scope**: of the seed routine, only the events and reports are
  modelled. The animal and behaviour records feed nothing in the engine.
- Baseline.CompareSessions: the iteration order of the behaviour set is the
  parameter `order`. No particular order, and hence no particular order of
  the flag list, is claimed.
- Diversity.DiversityIndex: states the band of the abstract `ratio`, not of
  the real entropy quotient. That `0 <= ratio <= 1` is not claimed.
- Events.MinuteBucket: assumes whole-second UTC timestamps on one time line.
  The source keys a bin by its `isoformat()` text, so a naive and an aware
  timestamp of the same minute, or one minute written with two offsets, give
  different keys; the model gives them one bin. A microsecond part, which the
  source also truncates, is not modelled.
- Ingest.IngestOutcome: does not model two 500s that timestamps and metadata
  can cause. A naive start with an aware end passes validation and is
  stored, and then subtracting the two raises a TypeError
  (models.py:212). Metadata values that are not strings fail when the
  stored event is built (ingest.py:33), before anything is stored. The
  model's events carry one kind of timestamp and string metadata.

## Where the comments and the code differ

The model follows the code in each case.

- **Feeding in the seeded data.** The comment above the s-101 seed loop
  (models.py:151) describes s-101 as having fewer feeding events than s-100.
  In the code, each session has six feeding events in its twelve minutes,
  so the count delta is 0 (`Seed.SeedComparison`).
- **Broadcast failures.** The broadcast is marked fire-and-forget
  (sockets.py:61), and `_send_safe` swallows send errors (sockets.py:20-24).
  Evidently a broadcast was never meant to fail the request. But the task is
  created in the synchronous handler's worker thread, where
  `asyncio.create_task` raises. So with any client connected the ingest
  answers 500 after storing the event (`Ingest.IngestOutcome`).
- **Scaling modes.** The docstring of `compute_summary` (models.py:197-203)
  names three modes. The function rejects no other mode; it treats any mode
  other than fixed or session as auto (`Summary.HeatmapMetaAuto`). Only the
  endpoint's query pattern (analytics.py:29) rejects other modes, with a 422
  (`AnalyticsRoutes.SummaryRouteStatus`).
