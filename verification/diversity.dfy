/**
 * The behaviour diversity of a session: each behaviour's share of the
 * session's total duration, the number of behaviours observed, and the
 * colour band of the normalised index.
 *
 * The entropy H and its maximum ln(n) are not computed here; the ratio
 * H / ln(n) is a parameter `ratio`, used exactly when the source divides
 * by a positive ln(n), that is when more than one behaviour is observed.
 * The logarithm itself is kept only where it fails: the shares of a
 * session whose durations sum to a negative total are negative, and the
 * logarithm of a negative share raises.
 */
module Diversity {
  import opened Wrappers
  import opened Dicts
  import opened Grouping
  import opened Events

  datatype Band = Low | Medium | High

  datatype DiversityResult = DiversityResult(
    sessionId: string,
    observed: int,
    normalized: real,
    colorBand: string,
    interpretation: string,
    support: Dict<string, real>)

  /** The band of a normalised index: below 0.33 low, below 0.66 medium, otherwise high. */
  function BandOf(normalized: real): Band {
    if normalized < 0.33 then Low
    else if normalized < 0.66 then Medium
    else High
  }

  function Color(b: Band): string {
    match b
    case Low => "low:red"
    case Medium => "medium:amber"
    case High => "high:green"
  }

  function Interpretation(b: Band): string {
    match b
    case Low => "Low diversity: dominated by few behaviors."
    case Medium => "Moderate diversity: mixed behavior profile."
    case High => "High diversity: balanced behavior distribution."
  }

  function Rank(b: Band): int {
    match b
    case Low => 0
    case Medium => 1
    case High => 2
  }

  /** The total duration of the events, or 1 when it is zero. */
  function TotalDuration(evs: seq<Event>): int {
    var t := SumW(evs, DurationOf);
    if t == 0 then 1 else t
  }

  /** `{b: v / total for b, v in d.items() if v > 0}`. */
  function Proportions(d: Dict<string, int>, total: int): Dict<string, real>
    requires total != 0
  {
    if d == [] then []
    else
      (if d[0].1 > 0 then [(d[0].0, d[0].1 as real / total as real)] else [])
      + Proportions(d[1..], total)
  }

  /** `sum(d.values())` over reals. */
  function SumReals(d: Dict<string, real>): real {
    if d == [] then 0.0 else d[0].1 + SumReals(d[1..])
  }

  /** The behaviours whose summed duration in `evs` is positive. */
  function Positive(evs: seq<Event>): set<string> {
    set b | b in MapSeq(evs, BehaviorOf) && SumW(Select(evs, BehaviorOf, b), DurationOf) > 0
  }

  /**
   * GET /analytics/diversity-index for one session: each behaviour's share
   * of the total duration, the number of behaviours kept, and the band.
   * A negative total with some behaviour kept fails with a 500.
   */
  function DiversityIndex(store: seq<Event>, sessionId: string, ratio: real): Result<DiversityResult> {
    var evs := EventsForSessions(store, [sessionId]);
    var byBehavior := Tally(evs, BehaviorOf, DurationOf);
    var total := TotalDuration(evs);
    var support := Proportions(byBehavior, total);
    if total < 0 && support != [] then
      Err(HttpError(500, "Internal Server Error"))
    else
      var n := if |support| > 1 then |support| else 1;
      var normalized := if n > 1 then ratio else 0.0;
      var band := BandOf(normalized);
      Ok(DiversityResult(sessionId, n, normalized, Color(band), Interpretation(band), support))
  }

  /** Each band covers its half-open interval of the index. */
  lemma BandThresholds(x: real)
    ensures BandOf(x) == Low <==> x < 0.33
    ensures BandOf(x) == Medium <==> 0.33 <= x < 0.66
    ensures BandOf(x) == High <==> 0.66 <= x
  {
  }

  /** A larger index never falls into a lower band. */
  lemma BandMonotone(x: real, y: real)
    requires x <= y
    ensures Rank(BandOf(x)) <= Rank(BandOf(y))
  {
  }

  /** The entry the filter keeps for the first pair of a dict, if any. */
  function ProportionHead(p: (string, int), total: int): Dict<string, real>
    requires total != 0
  {
    if p.1 > 0 then [(p.0, p.1 as real / total as real)] else []
  }

  lemma ProportionsUnfold(d: Dict<string, int>, total: int)
    requires total != 0 && d != []
    ensures Proportions(d, total) == ProportionHead(d[0], total) + Proportions(d[1..], total)
  {
  }

  /** Looking past a leading entry with another key. */
  lemma GetPast(x: (string, real), rest: Dict<string, real>, b: string)
    requires x.0 != b
    ensures Get([x] + rest, b, 0.0) == Get(rest, b, 0.0)
    ensures HasKey([x] + rest, b) <==> HasKey(rest, b)
  {
    KeysAppend([x], rest);
    assert ([x] + rest)[1..] == rest;
  }

  /** The filter keeps exactly the positive entries, each divided by the total. */
  lemma {:induction false} ProportionsGet(d: Dict<string, int>, total: int, b: string)
    requires total != 0
    requires Wf(d)
    ensures HasKey(Proportions(d, total), b) <==> Get(d, b, 0) > 0
    ensures Get(Proportions(d, total), b, 0.0)
         == if Get(d, b, 0) > 0 then Get(d, b, 0) as real / total as real else 0.0
  {
    if d != [] {
      WfTail(d);
      ProportionsGet(d[1..], total, b);
      var rest := Proportions(d[1..], total);
      var head := ProportionHead(d[0], total);
      ProportionsUnfold(d, total);
      ProportionsKeys(d[1..], total);
      if d[0].1 > 0 {
        var x := (d[0].0, d[0].1 as real / total as real);
        assert head == [x];
        if d[0].0 == b {
          KeysAppend(head, rest);
          assert Keys(head) == [b];
          assert (head + rest)[0] == x;
        } else {
          GetPast(x, rest, b);
        }
      } else {
        assert Proportions(d, total) == rest;
        if d[0].0 == b {
          GetFound(rest, b, 0.0);
        }
      }
    }
  }

  /** Every key of the proportions is a key of the dict. */
  lemma {:induction false} ProportionsKeys(d: Dict<string, int>, total: int)
    requires total != 0
    ensures forall b :: HasKey(Proportions(d, total), b) ==> HasKey(d, b)
  {
    if d != [] {
      ProportionsKeys(d[1..], total);
      var head := ProportionHead(d[0], total);
      ProportionsUnfold(d, total);
      KeysAppend(head, Proportions(d[1..], total));
      assert Keys(d) == [d[0].0] + Keys(d[1..]);
      if head != [] {
        assert Keys(head) == [d[0].0];
      }
      forall b | HasKey(Proportions(d, total), b) ensures HasKey(d, b) {
        assert b in Keys(head) || HasKey(Proportions(d[1..], total), b);
      }
    }
  }

  lemma DivAdd(a: int, b: int, total: int)
    requires total != 0
    ensures a as real / total as real + b as real / total as real == (a + b) as real / total as real
  {
  }

  /** Without negative entries the proportions add up to the dict's sum over the total. */
  lemma {:induction false} ProportionsSum(d: Dict<string, int>, total: int)
    requires total != 0
    requires forall p :: p in d ==> p.1 >= 0
    ensures SumReals(Proportions(d, total)) == SumValues(d) as real / total as real
  {
    if d != [] {
      assert forall p :: p in d[1..] ==> p in d;
      ProportionsSum(d[1..], total);
      var head := ProportionHead(d[0], total);
      ProportionsUnfold(d, total);
      SumRealsAppend(head, Proportions(d[1..], total));
      assert d[0] in d;
      DivAdd(d[0].1, SumValues(d[1..]), total);
      if d[0].1 > 0 {
        assert SumReals(head) == d[0].1 as real / total as real + SumReals([]);
      } else {
        assert d[0].1 == 0;
        assert SumReals(head) == 0.0;
      }
    }
  }

  lemma {:induction false} SumRealsAppend(a: Dict<string, real>, b: Dict<string, real>)
    ensures SumReals(a + b) == SumReals(a) + SumReals(b)
  {
    if a == [] {
      assert a + b == b;
    } else {
      SumRealsAppend(a[1..], b);
      assert (a + b)[0] == a[0];
      assert (a + b)[1..] == a[1..] + b;
    }
  }

  /** With non-negative weights every per-key total is non-negative. */
  lemma {:induction false} TallyNonNegative(evs: seq<Event>)
    requires forall e :: e in evs ==> e.startTs <= e.endTs
    ensures forall p :: p in Tally(evs, BehaviorOf, DurationOf) ==> p.1 >= 0
  {
    if evs != [] {
      var prefix := evs[..|evs| - 1];
      var e := evs[|evs| - 1];
      assert forall x :: x in prefix ==> x in evs;
      TallyNonNegative(prefix);
      var d := Tally(prefix, BehaviorOf, DurationOf);
      assert e in evs;
      GetFound(d, e.behaviorId, 0);
      PutEntries(d, e.behaviorId, Get(d, e.behaviorId, 0) + DurationOf(e));
    }
  }

  /**
   * The support holds exactly the behaviours with a positive summed
   * duration in the session, each with its share of the total duration.
   */
  lemma SupportShares(store: seq<Event>, sessionId: string, ratio: real, b: string)
    ensures var evs := EventsForSessions(store, [sessionId]);
            var dur := SumW(Select(evs, BehaviorOf, b), DurationOf);
            var r := DiversityIndex(store, sessionId, ratio);
            r.Ok? ==>
              && r.value.sessionId == sessionId
              && (HasKey(r.value.support, b) <==> dur > 0)
              && Get(r.value.support, b, 0.0) == if dur > 0 then dur as real / TotalDuration(evs) as real else 0.0
  {
    var evs := EventsForSessions(store, [sessionId]);
    TallyKeys(evs, BehaviorOf, DurationOf);
    TallyGet(evs, BehaviorOf, DurationOf, b);
    ProportionsGet(Tally(evs, BehaviorOf, DurationOf), TotalDuration(evs), b);
  }

  /**
   * When no event runs backwards and some time was spent, the shares add up
   * to one.
   */
  lemma SupportSumsToOne(store: seq<Event>, sessionId: string, ratio: real)
    requires forall e :: e in EventsForSessions(store, [sessionId]) ==> e.startTs <= e.endTs
    requires SumW(EventsForSessions(store, [sessionId]), DurationOf) > 0
    ensures var r := DiversityIndex(store, sessionId, ratio);
            r.Ok? && SumReals(r.value.support) == 1.0
  {
    SharesSumToOne(EventsForSessions(store, [sessionId]));
  }

  lemma SharesSumToOne(evs: seq<Event>)
    requires forall e :: e in evs ==> e.startTs <= e.endTs
    requires SumW(evs, DurationOf) > 0
    ensures SumReals(Proportions(Tally(evs, BehaviorOf, DurationOf), TotalDuration(evs))) == 1.0
  {
    var d := Tally(evs, BehaviorOf, DurationOf);
    var total := SumW(evs, DurationOf);
    assert TotalDuration(evs) == total;
    TallyNonNegative(evs);
    TallySum(evs, BehaviorOf, DurationOf);
    assert SumValues(d) == total;
    ProportionsSum(d, total);
    DivSelf(total);
  }

  lemma DivSelf(x: int)
    requires x != 0
    ensures x as real / x as real == 1.0
  {
  }

  /** A session without events has an empty support, one behaviour counted, index 0 and the low band. */
  lemma NoEvents(store: seq<Event>, sessionId: string, ratio: real)
    requires EventsForSessions(store, [sessionId]) == []
    ensures var r := DiversityIndex(store, sessionId, ratio);
            && r.Ok?
            && r.value.support == []
            && r.value.observed == 1 && r.value.normalized == 0.0
            && r.value.colorBand == "low:red"
            && r.value.interpretation == "Low diversity: dominated by few behaviors."
  {
    assert Tally(EventsForSessions(store, [sessionId]), BehaviorOf, DurationOf) == [];
    assert BandOf(0.0) == Low;
  }

  /** The keys of a dict whose value is positive. */
  function PositiveKeys(d: Dict<string, int>): set<string> {
    set b | b in Keys(d) && Get(d, b, 0) > 0
  }

  /** A well-formed dict keeps one proportion per positive key. */
  lemma {:induction false} ProportionsCount(d: Dict<string, int>, total: int)
    requires total != 0
    requires Wf(d)
    ensures |Proportions(d, total)| == |PositiveKeys(d)|
  {
    if d != [] {
      var k := d[0].0;
      WfTail(d);
      ProportionsCount(d[1..], total);
      ProportionsUnfold(d, total);
      var rest := PositiveKeys(d[1..]);
      assert k !in rest;
      forall b ensures b in PositiveKeys(d) <==> (b == k && d[0].1 > 0) || b in rest {
        assert b in Keys(d) <==> b == k || b in Keys(d[1..]);
      }
      if d[0].1 > 0 {
        assert PositiveKeys(d) == {k} + rest;
      } else {
        assert PositiveKeys(d) == rest;
      }
    }
  }

  /** The positive keys of the duration tally are the behaviours with a positive summed duration. */
  lemma TallyPositive(evs: seq<Event>)
    ensures PositiveKeys(Tally(evs, BehaviorOf, DurationOf)) == Positive(evs)
  {
    var d := Tally(evs, BehaviorOf, DurationOf);
    TallyKeys(evs, BehaviorOf, DurationOf);
    DistinctFacts(MapSeq(evs, BehaviorOf));
    forall b ensures b in PositiveKeys(d) <==> b in Positive(evs) {
      TallyGet(evs, BehaviorOf, DurationOf, b);
    }
  }

  /** The support has one entry per behaviour with a positive summed duration. */
  lemma SupportSize(evs: seq<Event>)
    ensures |Proportions(Tally(evs, BehaviorOf, DurationOf), TotalDuration(evs))| == |Positive(evs)|
  {
    TallyKeys(evs, BehaviorOf, DurationOf);
    ProportionsCount(Tally(evs, BehaviorOf, DurationOf), TotalDuration(evs));
    TallyPositive(evs);
  }

  /**
   * The index fails, with a 500, exactly when the session's durations sum
   * to a negative total and some behaviour has a positive summed duration.
   */
  lemma DiversityFails(store: seq<Event>, sessionId: string, ratio: real)
    ensures var evs := EventsForSessions(store, [sessionId]);
            var r := DiversityIndex(store, sessionId, ratio);
            && (r.Err? <==> SumW(evs, DurationOf) < 0 && Positive(evs) != {})
            && (r.Err? ==> r.error.status == 500)
  {
    SupportSize(EventsForSessions(store, [sessionId]));
  }

  /**
   * The behaviours counted are those with a positive summed duration, and
   * at least one.  With at most one of them the index is 0 and the band
   * low; otherwise the index is the given ratio and the band is the ratio's.
   */
  lemma ObservedAndBand(store: seq<Event>, sessionId: string, ratio: real)
    ensures var evs := EventsForSessions(store, [sessionId]);
            var k := |Positive(evs)|;
            var r := DiversityIndex(store, sessionId, ratio);
            r.Ok? ==>
              && r.value.observed == (if k > 1 then k else 1)
              && (k <= 1 ==> r.value.normalized == 0.0 && r.value.colorBand == "low:red"
                             && r.value.interpretation == Interpretation(Low))
              && (k > 1 ==> r.value.normalized == ratio && r.value.colorBand == Color(BandOf(ratio))
                            && r.value.interpretation == Interpretation(BandOf(ratio)))
  {
    SupportSize(EventsForSessions(store, [sessionId]));
  }
}
