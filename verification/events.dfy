/**
 * The event store: annotated behaviour events kept in arrival order, the
 * session filter every analytics query starts from, and the minute bucket
 * that trendlines and heatmaps group by.
 *
 * Timestamps are whole seconds on one time line, so a duration is the plain
 * difference `end - start` and the minute bucket is a timestamp too.
 */
module Events {
  import opened Wrappers

  /** A behaviour occurrence in a session timeline; never changed once stored. */
  datatype Event = Event(
    id: string,
    animalId: string,
    behaviorId: string,
    sessionId: string,
    cameraId: string,
    startTs: int,
    endTs: int,
    confidence: real,
    metadata: map<string, string>)

  /** A saved report: a named list of session ids. */
  datatype Report = Report(
    id: string,
    name: string,
    sessions: seq<string>,
    createdAt: int,
    notes: Option<string>)

  function BehaviorOf(e: Event): string { e.behaviorId }

  function CameraOf(e: Event): string { e.cameraId }

  function SessionOf(e: Event): string { e.sessionId }

  /** Length of the event in seconds; negative when the end precedes the start. */
  function DurationOf(e: Event): int { e.endTs - e.startTs }

  /** The start of the minute holding `ts`: seconds set to zero. */
  function MinuteBucket(ts: int): (b: int)
    ensures b <= ts < b + 60
    ensures b % 60 == 0
  {
    ts - ts % 60
  }

  /** Events are binned by their start time only. */
  function StartBucket(e: Event): int { MinuteBucket(e.startTs) }

  /** A minute bucket is the only whole minute within the 60 seconds up to `ts`. */
  lemma BucketUnique(ts: int, b: int)
    requires b % 60 == 0 && b <= ts < b + 60
    ensures MinuteBucket(ts) == b
  {
    var m := MinuteBucket(ts);
    assert (b - m) % 60 == 0 by {
      assert b == (b / 60) * 60 && m == (m / 60) * 60;
      assert b - m == (b / 60 - m / 60) * 60;
    }
  }

  /** Truncating twice is truncating once. */
  lemma BucketIdempotent(ts: int)
    ensures MinuteBucket(MinuteBucket(ts)) == MinuteBucket(ts)
  {
    BucketUnique(MinuteBucket(ts), MinuteBucket(ts));
  }

  /** Buckets keep the order of the timestamps they come from. */
  lemma BucketMonotone(s: int, t: int)
    requires s <= t
    ensures MinuteBucket(s) <= MinuteBucket(t)
  {
  }

  /** The events of the store whose session is listed, in store order. */
  function EventsForSessions(store: seq<Event>, sessionIds: seq<string>): seq<Event> {
    if store == [] then []
    else
      var p := EventsForSessions(store[..|store| - 1], sessionIds);
      var e := store[|store| - 1];
      if e.sessionId in sessionIds then p + [e] else p
  }

  /** An event is selected exactly when it is stored and its session is listed. */
  lemma {:induction false} EventsForSessionsMembers(store: seq<Event>, sessionIds: seq<string>)
    ensures forall e :: e in EventsForSessions(store, sessionIds) <==> e in store && e.sessionId in sessionIds
  {
    if store != [] {
      EventsForSessionsMembers(store[..|store| - 1], sessionIds);
      assert store == store[..|store| - 1] + [store[|store| - 1]];
    }
  }

  /** The filter keeps store order: filtering a concatenation concatenates the filtered parts. */
  lemma {:induction false} EventsForSessionsAppend(a: seq<Event>, b: seq<Event>, sessionIds: seq<string>)
    ensures EventsForSessions(a + b, sessionIds)
         == EventsForSessions(a, sessionIds) + EventsForSessions(b, sessionIds)
  {
    if b != [] {
      var b' := b[..|b| - 1];
      EventsForSessionsAppend(a, b', sessionIds);
      assert (a + b)[..|a + b| - 1] == a + b';
    } else {
      assert a + b == a;
    }
  }

  /**
   * Only the set of listed sessions matters: repeating or reordering a session
   * id selects the same events, each once.
   */
  lemma {:induction false} EventsForSessionsSetOnly(store: seq<Event>, ids1: seq<string>, ids2: seq<string>)
    requires forall s :: s in ids1 <==> s in ids2
    ensures EventsForSessions(store, ids1) == EventsForSessions(store, ids2)
  {
    if store != [] {
      EventsForSessionsSetOnly(store[..|store| - 1], ids1, ids2);
    }
  }

  /** Each stored event is selected at most once, so the selection is no longer than the store. */
  lemma {:induction false} EventsForSessionsLength(store: seq<Event>, sessionIds: seq<string>)
    ensures |EventsForSessions(store, sessionIds)| <= |store|
    ensures (forall e :: e in store ==> e.sessionId in sessionIds) ==> EventsForSessions(store, sessionIds) == store
    ensures (forall e :: e in store ==> e.sessionId !in sessionIds) ==> EventsForSessions(store, sessionIds) == []
  {
    if store != [] {
      var p := store[..|store| - 1];
      EventsForSessionsLength(p, sessionIds);
      assert store == p + [store[|store| - 1]];
      assert forall e :: e in p ==> e in store;
    }
  }
}
