/**
 * The analytics endpoints: the summary endpoint's choice between a saved
 * report's sessions, an explicit session list and an error, and the
 * baseline-comparison and diversity-index endpoints, which hand their
 * query parameters straight to the engine.
 *
 * Query parameters that were not sent are `None`.  A missing required
 * parameter and a scaling mode outside fixed|auto|session are rejected by
 * the web framework with status 422 before the handler runs.
 */
module AnalyticsRoutes {
  import opened Wrappers
  import opened Dicts
  import opened Grouping
  import opened Events
  import opened Summary
  import opened Baseline
  import opened Diversity

  /** The pattern `^(fixed|auto|session)$` on the scaling parameter. */
  predicate ValidScaling(s: string) {
    s == "fixed" || s == "auto" || s == "session"
  }

  /** A report id that Python treats as given: present and non-empty. */
  predicate ReportRequested(reportId: Option<string>) {
    reportId.Some? && reportId.value != ""
  }

  /**
   * The sessions to summarise: a requested report's sessions (404 when it
   * is unknown), otherwise the listed sessions (400 when there are none).
   */
  function ResolveSessions(reports: map<string, Report>, sessionId: Option<seq<string>>,
                           reportId: Option<string>): Result<seq<string>>
  {
    if ReportRequested(reportId) then
      if reportId.value !in reports then Err(HttpError(404, "Report not found"))
      else Ok(reports[reportId.value].sessions)
    else
      var sessions := if sessionId.Some? then sessionId.value else [];
      if sessions == [] then Err(HttpError(400, "sessionId or reportId is required"))
      else Ok(sessions)
  }

  /** GET /analytics/summary. */
  function SummaryRoute(store: seq<Event>, reports: map<string, Report>, sessionId: Option<seq<string>>,
                        reportId: Option<string>, heatmapScaling: Option<string>): Result<AnalyticsSummary>
  {
    var scaling := if heatmapScaling.Some? then heatmapScaling.value else "auto";
    if !ValidScaling(scaling) then Err(HttpError(422, "heatmapScaling must match ^(fixed|auto|session)$"))
    else
      match ResolveSessions(reports, sessionId, reportId)
      case Err(e) => Err(e)
      case Ok(sessions) => Ok(ComputeSummary(store, sessions, scaling))
  }

  /**
   * A requested report decides the sessions whatever the session list says:
   * an unknown report is 404, a known one is summarised with its own
   * sessions (even when it has none).
   */
  lemma ReportTakesPrecedence(store: seq<Event>, reports: map<string, Report>, sessionId: Option<seq<string>>,
                              r: string, scaling: string)
    requires r != "" && ValidScaling(scaling)
    ensures var res := SummaryRoute(store, reports, sessionId, Some(r), Some(scaling));
            && (r !in reports ==> res == Err(HttpError(404, "Report not found")))
            && (r in reports ==> res == Ok(ComputeSummary(store, reports[r].sessions, scaling)))
            && (r in reports && reports[r].sessions == [] ==>
                  res.Ok? && res.value.sessions == [] && res.value.counts == [] && res.value.heatmap == [])
  {
    EventsForSessionsLength(store, []);
  }

  /** Without a report, the summary covers the listed sessions, and an absent or empty list is 400. */
  lemma SessionListUsed(store: seq<Event>, reports: map<string, Report>, sessionId: Option<seq<string>>,
                        reportId: Option<string>, scaling: string)
    requires !ReportRequested(reportId) && ValidScaling(scaling)
    ensures var res := SummaryRoute(store, reports, sessionId, reportId, Some(scaling));
            && (sessionId.None? || sessionId.value == [] ==>
                  res == Err(HttpError(400, "sessionId or reportId is required")))
            && (sessionId.Some? && sessionId.value != [] ==>
                  res == Ok(ComputeSummary(store, sessionId.value, scaling)))
  {
  }

  /**
   * The status of the summary endpoint: 422 for a bad scaling mode first,
   * then 404 for an unknown report, then 400 for a missing session list;
   * a success echoes the resolved sessions and the scaling mode, auto by
   * default.
   */
  lemma SummaryRouteStatus(store: seq<Event>, reports: map<string, Report>, sessionId: Option<seq<string>>,
                           reportId: Option<string>, heatmapScaling: Option<string>)
    ensures var res := SummaryRoute(store, reports, sessionId, reportId, heatmapScaling);
            var scaling := if heatmapScaling.Some? then heatmapScaling.value else "auto";
            && (!ValidScaling(scaling) <==> res.Err? && res.error.status == 422)
            && (res.Err? && res.error.status == 404 <==>
                  ValidScaling(scaling) && ReportRequested(reportId) && reportId.value !in reports)
            && (res.Err? && res.error.status == 400 <==>
                  ValidScaling(scaling) && !ReportRequested(reportId)
                  && (sessionId.None? || sessionId.value == []))
            && (res.Ok? ==>
                  && res.value.sessions == (if ReportRequested(reportId) then reports[reportId.value].sessions
                                            else sessionId.value)
                  && Get(res.value.meta, "scaling", "") == scaling)
            && (heatmapScaling.None? && res.Ok? ==> Get(res.value.meta, "scaling", "") == "auto")
  {
    var res := SummaryRoute(store, reports, sessionId, reportId, heatmapScaling);
    if res.Ok? {
      var scaling := if heatmapScaling.Some? then heatmapScaling.value else "auto";
      var sessions := ResolveSessions(reports, sessionId, reportId).value;
      SummaryEchoes(store, sessions, scaling);
    }
  }

  /** GET /analytics/baseline-comparison: both ids are required and passed through. */
  function BaselineRoute(store: seq<Event>, sessionId: Option<string>, baselineId: Option<string>,
                         order: seq<string>): Result<Comparison>
    requires sessionId.Some? && baselineId.Some? ==>
               Enumerates(order, Behaviors(Agg(store, sessionId.value)) + Behaviors(Agg(store, baselineId.value)))
  {
    if sessionId.None? || baselineId.None? then Err(HttpError(422, "Field required"))
    else Ok(CompareSessions(store, sessionId.value, baselineId.value, order))
  }

  /** GET /analytics/diversity-index: the session id is required and passed through. */
  function DiversityRoute(store: seq<Event>, sessionId: Option<string>, ratio: real): Result<DiversityResult> {
    if sessionId.None? then Err(HttpError(422, "Field required"))
    else DiversityIndex(store, sessionId.value, ratio)
  }

  /** The baseline endpoint answers with the comparison of exactly the two requested sessions. */
  lemma BaselineRoutePassThrough(store: seq<Event>, sessionId: Option<string>, baselineId: Option<string>,
                                 order: seq<string>)
    requires sessionId.Some? && baselineId.Some? ==>
               Enumerates(order, Behaviors(Agg(store, sessionId.value)) + Behaviors(Agg(store, baselineId.value)))
    ensures var res := BaselineRoute(store, sessionId, baselineId, order);
            && (res.Ok? <==> sessionId.Some? && baselineId.Some?)
            && (res.Err? ==> res.error.status == 422)
            && (res.Ok? ==> res.value.sessionId == sessionId.value && res.value.baselineId == baselineId.value
                            && res.value == CompareSessions(store, sessionId.value, baselineId.value, order))
  {
  }

  /**
   * The diversity endpoint answers with the index of exactly the requested
   * session: a missing id is a 422, and a session whose durations sum to a
   * negative total while some behaviour's sum is positive is a 500.
   */
  lemma DiversityRoutePassThrough(store: seq<Event>, sessionId: Option<string>, ratio: real)
    ensures var res := DiversityRoute(store, sessionId, ratio);
            && (sessionId.None? ==> res == Err(HttpError(422, "Field required")))
            && (sessionId.Some? ==>
                  var evs := EventsForSessions(store, [sessionId.value]);
                  && res == DiversityIndex(store, sessionId.value, ratio)
                  && (res.Ok? <==> !(SumW(evs, DurationOf) < 0 && Positive(evs) != {}))
                  && (res.Err? ==> res.error.status == 500)
                  && (res.Ok? ==> res.value.sessionId == sessionId.value))
  {
    if sessionId.Some? {
      DiversityFails(store, sessionId.value, ratio);
    }
  }
}
