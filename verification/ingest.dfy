/**
 * Event ingestion as a state transition.  The state is the event store
 * together with the outbox of messages handed to the live-update
 * broadcaster; delivering them to connected clients is not modelled.
 */
module Ingest {
  import opened Wrappers
  import opened Dicts
  import opened Grouping
  import opened Events
  import opened Summary

  /** A broadcast message: a new event, or the analytics delta of its session. */
  datatype Message =
    | EventMessage(event: Event)
    | AnalyticsDelta(summary: AnalyticsSummary)

  /** The `type` field clients see on a broadcast message. */
  function MessageType(m: Message): string {
    match m
    case EventMessage(_) => "event"
    case AnalyticsDelta(_) => "analytics_delta"
  }

  datatype State = State(store: seq<Event>, outbox: seq<Message>)

  /** The new state and either the reply status or the HTTP error. */
  datatype Outcome = Outcome(state: State, reply: Result<string>)

  /** The payload schema bounds the confidence to [0, 1]. */
  predicate ValidConfidence(e: Event) {
    0.0 <= e.confidence <= 1.0
  }

  /** Some stored event already carries this id. */
  predicate IdTaken(store: seq<Event>, id: string) {
    exists i :: 0 <= i < |store| && store[i].id == id
  }

  /** No two stored events share an id. */
  predicate UniqueIds(store: seq<Event>) {
    forall i, j :: 0 <= i < j < |store| ==> store[i].id != store[j].id
  }

  /**
   * POST /ingest/event: reject a confidence outside [0, 1] (422) or an id
   * already stored (409); otherwise append the event, broadcast it, then
   * broadcast the session-scaled summary of its session, and reply "ok".
   *
   * The handler is a plain (non-async) function, so the web framework runs
   * it on a worker thread, where there is no running event loop.  With no
   * client connected the broadcast loops do nothing; with `clients > 0`
   * the first `asyncio.create_task` raises, after the append, and the
   * request fails with a 500 carrying neither broadcast.
   */
  function IngestEvent(s: State, payload: Event, clients: nat): Outcome {
    if !ValidConfidence(payload) then
      Outcome(s, Err(HttpError(422, "confidence must be between 0 and 1")))
    else if IdTaken(s.store, payload.id) then
      Outcome(s, Err(HttpError(409, "Event id already exists")))
    else if clients > 0 then
      Outcome(State(s.store + [payload], s.outbox), Err(HttpError(500, "Internal Server Error")))
    else
      var store := s.store + [payload];
      var delta := ComputeSummary(store, [payload.sessionId], "session");
      Outcome(State(store, s.outbox + [EventMessage(payload), AnalyticsDelta(delta)]), Ok("ok"))
  }

  /**
   * The request succeeds exactly when the confidence is in range, the id is
   * new and no client is connected.  A rejected payload changes nothing; an
   * accepted one with clients connected is stored but answered with a 500.
   */
  lemma IngestOutcome(s: State, payload: Event, clients: nat)
    ensures var o := IngestEvent(s, payload, clients);
            && (o.reply.Ok? <==> ValidConfidence(payload) && !IdTaken(s.store, payload.id) && clients == 0)
            && (o.reply.Ok? ==> o.reply.value == "ok")
            && (!ValidConfidence(payload) ==> o.reply == Err(HttpError(422, o.reply.error.detail)))
            && (ValidConfidence(payload) && IdTaken(s.store, payload.id) ==>
                  o.reply == Err(HttpError(409, "Event id already exists")))
            && (!ValidConfidence(payload) || IdTaken(s.store, payload.id) ==> o.state == s)
            && (ValidConfidence(payload) && !IdTaken(s.store, payload.id) && clients > 0 ==>
                  o.reply.Err? && o.reply.error.status == 500 &&
                  o.state == State(s.store + [payload], s.outbox))
  {
  }

  /**
   * An accepted payload is appended as the last event stored, whether or not
   * the request then fails.  Without clients the outbox gains exactly two
   * messages, first the event and then the analytics delta; with clients it
   * gains none.
   */
  lemma IngestAppends(s: State, payload: Event, clients: nat)
    requires ValidConfidence(payload) && !IdTaken(s.store, payload.id)
    ensures var o := IngestEvent(s, payload, clients);
            && o.state.store == s.store + [payload]
            && |o.state.store| == |s.store| + 1
            && o.state.store[|s.store|] == payload
            && o.state.outbox[..|s.outbox|] == s.outbox
            && (clients > 0 ==> o.state.outbox == s.outbox)
            && (clients == 0 ==>
                  && |o.state.outbox| == |s.outbox| + 2
                  && o.state.outbox[|s.outbox|] == EventMessage(payload)
                  && MessageType(o.state.outbox[|s.outbox|]) == "event"
                  && MessageType(o.state.outbox[|s.outbox| + 1]) == "analytics_delta")
  {
  }

  /** Ingest keeps event ids unique. */
  lemma IngestKeepsIdsUnique(s: State, payload: Event, clients: nat)
    requires UniqueIds(s.store)
    ensures UniqueIds(IngestEvent(s, payload, clients).state.store)
  {
    if ValidConfidence(payload) && !IdTaken(s.store, payload.id) {
      var store := s.store + [payload];
      forall i, j | 0 <= i < j < |store| ensures store[i].id != store[j].id {
        if j == |s.store| {
          assert store[i] == s.store[i];
        }
      }
    }
  }

  /**
   * Without clients connected, the analytics delta summarises the event's
   * session after the append in session scaling: it lists that one
   * session, and its count for the event's behaviour is the count before the
   * ingest plus one.
   */
  lemma IngestDelta(s: State, payload: Event)
    requires ValidConfidence(payload) && !IdTaken(s.store, payload.id)
    ensures var o := IngestEvent(s, payload, 0);
            var sid := payload.sessionId;
            var delta := o.state.outbox[|s.outbox| + 1];
            && delta.AnalyticsDelta?
            && delta.summary == ComputeSummary(s.store + [payload], [sid], "session")
            && delta.summary.sessions == [sid]
            && Get(delta.summary.counts, payload.behaviorId, 0)
               == |Select(EventsForSessions(s.store, [sid]), BehaviorOf, payload.behaviorId)| + 1
            && Get(delta.summary.meta, "scaling", "") == "session"
  {
    var sid := payload.sessionId;
    var store := s.store + [payload];
    var b := payload.behaviorId;
    SummaryCounts(store, [sid], "session", b);
    SummaryEchoes(store, [sid], "session");
    assert EventsForSessions(store, [sid]) == EventsForSessions(s.store, [sid]) + [payload];
  }
}
