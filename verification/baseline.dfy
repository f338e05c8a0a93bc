/**
 * Comparison of a target session with a baseline session: per-behaviour
 * percent changes of the event count and of the total duration, and a
 * notable-change flag for each behaviour whose count rose or fell by at
 * least half.
 *
 * The service walks the union of the behaviours in the order of a Python
 * set, which the program does not fix; the model takes that order as a
 * parameter `order`, any duplicate-free enumeration of the union.
 */
module Baseline {
  import opened Dicts
  import opened Grouping
  import opened Events

  datatype Deltas = Deltas(countPct: real, durationPct: real)

  /** A notable change in a behaviour's event count, with the unrounded percentage. */
  datatype Flag =
    | Increase(behavior: string, pct: real)
    | Decrease(behavior: string, pct: real)

  datatype Comparison = Comparison(
    sessionId: string,
    baselineId: string,
    deltas: Dict<string, Deltas>,
    flags: seq<Flag>)

  /** Per-behaviour event counts and total durations of one session. */
  datatype Aggregate = Aggregate(counts: Dict<string, int>, durations: Dict<string, int>)

  function Agg(store: seq<Event>, s: string): Aggregate {
    var evs := EventsForSessions(store, [s]);
    Aggregate(Tally(evs, BehaviorOf, One), Tally(evs, BehaviorOf, DurationOf))
  }

  /** The events of session `s` showing behaviour `b`. */
  function EventsOf(store: seq<Event>, s: string, b: string): seq<Event> {
    Select(EventsForSessions(store, [s]), BehaviorOf, b)
  }

  /** Every behaviour named by either dict of an aggregate. */
  function Behaviors(a: Aggregate): set<string> {
    (set k | k in Keys(a.counts)) + (set k | k in Keys(a.durations))
  }

  /** `order` lists each element of `s` exactly once. */
  predicate Enumerates(order: seq<string>, s: set<string>) {
    NoDuplicates(order) && (set b | b in order) == s
  }

  /**
   * The percent change from baseline value `b` to target value `t`; when the
   * baseline is not positive the change is 100 if the target is positive
   * and 0 otherwise.
   */
  function PctDelta(t: int, b: int): real {
    if b > 0 then (t - b) as real / b as real * 100.0
    else if t > 0 then 100.0
    else 0.0
  }

  /** The flags raised for one behaviour by its count change. */
  function FlagsFor(b: string, pct: real): seq<Flag> {
    (if pct >= 50.0 then [Increase(b, pct)] else [])
    + (if pct <= -50.0 then [Decrease(b, pct)] else [])
  }

  function DeltaOf(t: Aggregate, base: Aggregate, b: string): Deltas {
    Deltas(PctDelta(Get(t.counts, b, 0), Get(base.counts, b, 0)),
           PctDelta(Get(t.durations, b, 0), Get(base.durations, b, 0)))
  }

  /** The loop over the behaviours: `deltas[b] = ...` and the flags appended, in `order`. */
  function CompareOver(order: seq<string>, t: Aggregate, base: Aggregate): (Dict<string, Deltas>, seq<Flag>) {
    if order == [] then ([], [])
    else
      var prev := CompareOver(order[..|order| - 1], t, base);
      var b := order[|order| - 1];
      var d := DeltaOf(t, base, b);
      (Put(prev.0, b, d), prev.1 + FlagsFor(b, d.countPct))
  }

  function CompareSessions(store: seq<Event>, sessionId: string, baselineId: string, order: seq<string>): Comparison
    requires Enumerates(order, Behaviors(Agg(store, sessionId)) + Behaviors(Agg(store, baselineId)))
  {
    var r := CompareOver(order, Agg(store, sessionId), Agg(store, baselineId));
    Comparison(sessionId, baselineId, r.0, r.1)
  }

  /** The deltas one entry per behaviour of `order`, in that order. */
  function DeltaList(order: seq<string>, t: Aggregate, base: Aggregate): Dict<string, Deltas> {
    seq(|order|, i requires 0 <= i < |order| => (order[i], DeltaOf(t, base, order[i])))
  }

  /**
   * The thresholds in whole numbers: a change is an increase of at least
   * half exactly when 2t >= 3b over a positive baseline or t > 0 over a
   * non-positive one, a decrease of at least half exactly when 2t <= b over
   * a positive baseline, and no change exactly when t == b over a positive
   * baseline or t and b are both not positive.
   */
  lemma PctDeltaThresholds(t: int, b: int)
    ensures PctDelta(t, b) >= 50.0 <==> (b > 0 && 2 * t >= 3 * b) || (b <= 0 && t > 0)
    ensures PctDelta(t, b) <= -50.0 <==> b > 0 && 2 * t <= b
    ensures PctDelta(t, b) == 0.0 <==> (b > 0 && t == b) || (b <= 0 && t <= 0)
    ensures b <= 0 ==> PctDelta(t, b) == (if t > 0 then 100.0 else 0.0)
  {
    if b > 0 {
      var x, y := (t - b) as real, b as real;
      DivAtLeast(x, y, 0.5);
      DivAtMost(x, y, -0.5);
      assert PctDelta(t, b) == x / y * 100.0;
    }
  }

  lemma DivAtLeast(x: real, y: real, c: real)
    requires y > 0.0
    ensures x / y >= c <==> x >= c * y
  {
    var q := x / y;
    assert q * y == x;
    if q >= c {
      assert (q - c) * y >= 0.0;
    } else {
      assert (c - q) * y > 0.0;
    }
  }

  lemma DivAtMost(x: real, y: real, c: real)
    requires y > 0.0
    ensures x / y <= c <==> x <= c * y
  {
    var q := x / y;
    assert q * y == x;
    if q <= c {
      assert (c - q) * y >= 0.0;
    } else {
      assert (q - c) * y > 0.0;
    }
  }

  /** The loop gives one delta per listed behaviour, keyed in `order`. */
  lemma {:induction false} CompareOverDeltas(order: seq<string>, t: Aggregate, base: Aggregate)
    requires NoDuplicates(order)
    ensures CompareOver(order, t, base).0 == DeltaList(order, t, base)
  {
    if order != [] {
      var prefix := order[..|order| - 1];
      var b := order[|order| - 1];
      CompareOverDeltas(prefix, t, base);
      var prev := DeltaList(prefix, t, base);
      forall i | 0 <= i < |prev| ensures Keys(prev)[i] != b {
        KeysAt(prev, i);
      }
      PutFresh(prev, b, DeltaOf(t, base, b));
      assert prev + [(b, DeltaOf(t, base, b))] == DeltaList(order, t, base);
    }
  }

  /** The delta list is keyed by `order` and is a well-formed dict when `order` has no repeats. */
  lemma DeltaListKeys(order: seq<string>, t: Aggregate, base: Aggregate)
    ensures Keys(DeltaList(order, t, base)) == order
  {
    var d := DeltaList(order, t, base);
    forall i | 0 <= i < |d| ensures Keys(d)[i] == order[i] {
      KeysAt(d, i);
    }
  }

  /** Looking a listed behaviour up in the loop's deltas finds its own delta. */
  lemma CompareOverGet(order: seq<string>, t: Aggregate, base: Aggregate, b: string, dflt: Deltas)
    requires NoDuplicates(order)
    ensures var deltas := CompareOver(order, t, base).0;
            && Keys(deltas) == order
            && Wf(deltas)
            && (b in order ==> Get(deltas, b, dflt) == DeltaOf(t, base, b))
  {
    CompareOverDeltas(order, t, base);
    DeltaListKeys(order, t, base);
    var d := DeltaList(order, t, base);
    if b in order {
      var i :| 0 <= i < |order| && order[i] == b;
      assert d[i] == (b, DeltaOf(t, base, b));
      GetUnique(d, d[i], dflt);
    }
  }

  /** Comparing an aggregate with itself gives zero deltas and no flags. */
  lemma {:induction false} CompareOverSelf(order: seq<string>, a: Aggregate)
    ensures var r := CompareOver(order, a, a);
            && (forall p :: p in r.0 ==> p.1 == Deltas(0.0, 0.0))
            && r.1 == []
  {
    if order != [] {
      var prefix := order[..|order| - 1];
      var b := order[|order| - 1];
      CompareOverSelf(prefix, a);
      PutEntries(CompareOver(prefix, a, a).0, b, DeltaOf(a, a, b));
    }
  }

  /** The flags of the loop: one per behaviour whose count change reaches a threshold. */
  lemma {:induction false} CompareOverFlags(order: seq<string>, t: Aggregate, base: Aggregate)
    ensures var flags := CompareOver(order, t, base).1;
            forall f :: f in flags <==>
              && f.behavior in order
              && f.pct == DeltaOf(t, base, f.behavior).countPct
              && (f.Increase? ==> f.pct >= 50.0)
              && (f.Decrease? ==> f.pct <= -50.0)
  {
    if order != [] {
      var prefix := order[..|order| - 1];
      var b := order[|order| - 1];
      CompareOverFlags(prefix, t, base);
      assert forall x :: x in order <==> x in prefix || x == b;
    }
  }

  /** No behaviour is flagged twice when `order` has no repeats. */
  lemma {:induction false} CompareOverOneFlag(order: seq<string>, t: Aggregate, base: Aggregate)
    requires NoDuplicates(order)
    ensures var flags := CompareOver(order, t, base).1;
            forall i, j :: 0 <= i < j < |flags| ==> flags[i].behavior != flags[j].behavior
  {
    if order != [] {
      var prefix := order[..|order| - 1];
      var b := order[|order| - 1];
      var prev := CompareOver(prefix, t, base).1;
      var extra := FlagsFor(b, DeltaOf(t, base, b).countPct);
      CompareOverOneFlag(prefix, t, base);
      CompareOverFlags(prefix, t, base);
      assert b !in prefix;
      assert |extra| <= 1;
      forall i | 0 <= i < |prev| ensures prev[i].behavior != b {
        assert prev[i] in prev;
      }
    }
  }

  /** The flags depend on the counts alone: durations never raise one. */
  lemma {:induction false} FlagsIgnoreDurations(order: seq<string>, t: Aggregate, base: Aggregate,
                                                t': Aggregate, base': Aggregate)
    requires t.counts == t'.counts && base.counts == base'.counts
    ensures CompareOver(order, t, base).1 == CompareOver(order, t', base').1
  {
    if order != [] {
      FlagsIgnoreDurations(order[..|order| - 1], t, base, t', base');
    }
  }

  /** A session's aggregate: each behaviour's count and summed duration, keyed by the behaviours it shows. */
  lemma AggSpec(store: seq<Event>, s: string, b: string)
    ensures var a := Agg(store, s);
            && Get(a.counts, b, 0) == |EventsOf(store, s, b)|
            && Get(a.durations, b, 0) == SumW(EventsOf(store, s, b), DurationOf)
            && (b in Behaviors(a) <==> EventsOf(store, s, b) != [])
  {
    var evs := EventsForSessions(store, [s]);
    TallyGet(evs, BehaviorOf, One, b);
    SumOne(Select(evs, BehaviorOf, b));
    TallyGet(evs, BehaviorOf, DurationOf, b);
    TallyHasKey(evs, BehaviorOf, One, b);
    TallyHasKey(evs, BehaviorOf, DurationOf, b);
  }

  /** The comparison lists exactly the behaviours seen in either session, in `order`, once each. */
  lemma ComparisonKeys(store: seq<Event>, sessionId: string, baselineId: string, order: seq<string>, b: string)
    requires Enumerates(order, Behaviors(Agg(store, sessionId)) + Behaviors(Agg(store, baselineId)))
    ensures var c := CompareSessions(store, sessionId, baselineId, order);
            && c.sessionId == sessionId && c.baselineId == baselineId
            && Keys(c.deltas) == order
            && Wf(c.deltas)
            && (HasKey(c.deltas, b) <==> EventsOf(store, sessionId, b) != [] || EventsOf(store, baselineId, b) != [])
  {
    var t, base := Agg(store, sessionId), Agg(store, baselineId);
    CompareOverGet(order, t, base, b, Deltas(0.0, 0.0));
    AggSpec(store, sessionId, b);
    AggSpec(store, baselineId, b);
    assert b in order <==> b in Behaviors(t) + Behaviors(base) by {
      assert b in order <==> b in (set x | x in order);
    }
  }

  /** Each listed behaviour carries the percent changes of its count and of its summed duration. */
  lemma ComparisonDeltas(store: seq<Event>, sessionId: string, baselineId: string, order: seq<string>, b: string)
    requires Enumerates(order, Behaviors(Agg(store, sessionId)) + Behaviors(Agg(store, baselineId)))
    requires b in order
    ensures Get(CompareSessions(store, sessionId, baselineId, order).deltas, b, Deltas(0.0, 0.0))
         == Deltas(PctDelta(|EventsOf(store, sessionId, b)|, |EventsOf(store, baselineId, b)|),
                   PctDelta(SumW(EventsOf(store, sessionId, b), DurationOf),
                            SumW(EventsOf(store, baselineId, b), DurationOf)))
  {
    CompareOverGet(order, Agg(store, sessionId), Agg(store, baselineId), b, Deltas(0.0, 0.0));
    AggSpec(store, sessionId, b);
    AggSpec(store, baselineId, b);
  }

  /**
   * An increase flag names a behaviour whose count rose by 50% or more, a
   * decrease flag one whose count fell by 50% or more, with that
   * percentage; every such behaviour is flagged, and none twice.
   */
  lemma ComparisonFlags(store: seq<Event>, sessionId: string, baselineId: string, order: seq<string>, f: Flag)
    requires Enumerates(order, Behaviors(Agg(store, sessionId)) + Behaviors(Agg(store, baselineId)))
    ensures var c := CompareSessions(store, sessionId, baselineId, order);
            var pct := PctDelta(|EventsOf(store, sessionId, f.behavior)|, |EventsOf(store, baselineId, f.behavior)|);
            && (f in c.flags <==>
                  && f.behavior in order
                  && f.pct == pct
                  && (f.Increase? ==> pct >= 50.0)
                  && (f.Decrease? ==> pct <= -50.0))
            && (forall i, j :: 0 <= i < j < |c.flags| ==> c.flags[i].behavior != c.flags[j].behavior)
  {
    var t := Agg(store, sessionId);
    var base := Agg(store, baselineId);
    CompareOverFlags(order, t, base);
    CompareOverOneFlag(order, t, base);
    AggSpec(store, sessionId, f.behavior);
    AggSpec(store, baselineId, f.behavior);
  }

  /** Comparing a session with itself changes nothing and flags nothing. */
  lemma SelfComparison(store: seq<Event>, s: string, order: seq<string>)
    requires Enumerates(order, Behaviors(Agg(store, s)) + Behaviors(Agg(store, s)))
    ensures var c := CompareSessions(store, s, s, order);
            && (forall p :: p in c.deltas ==> p.1 == Deltas(0.0, 0.0))
            && c.flags == []
  {
    CompareOverSelf(order, Agg(store, s));
  }
}
