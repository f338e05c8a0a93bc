/**
 * The demonstration data the service starts with, and what the baseline
 * comparison reports on it.  Session s-100 has twelve minutes of events on
 * two cameras; its baseline s-101 has the same twelve minutes with the
 * behaviours swapped around; s-200 is a third session on one camera.
 */
module Seed {
  import opened Wrappers
  import opened Dicts
  import opened Grouping
  import opened Events
  import opened Decimal
  import opened Baseline
  import opened Summary
  import opened AnalyticsRoutes

  /** 2024-01-01 12:00:00, in seconds since the epoch. */
  const Base := 1704110400

  /** The minutes seeded for s-100 and s-101, and for s-200. */
  const Window: nat := 12
  const AlertWindow: nat := 8

  /** The event with id `e-<n>` lasting `dur` seconds from `start`. */
  function SeedEvent(n: nat, animal: string, behavior: string, session: string, camera: string,
                     start: int, dur: int, conf: real): Event
  {
    Event("e-" + NatToString(n), animal, behavior, session, camera, start, start + dur, conf,
          map["annotator" := "seed", "marker" := "sync"])
  }

  /** Minute `i` of s-100: feeding or resting on cam-A, then play or grooming on cam-B. */
  function Pair100(i: nat): seq<Event> {
    [SeedEvent(2 * i + 1, "a-1", if i % 2 == 0 then "b-feed" else "b-rest", "s-100", "cam-A",
               Base + 60 * i, if i % 2 == 0 then 40 else 55, 0.9),
     SeedEvent(2 * i + 2, "a-1", if i % 3 == 0 then "b-play" else "b-groom", "s-100", "cam-B",
               Base + 60 * i + 5, 35, 0.9)]
  }

  /** Minute `i` of s-101: resting or feeding on cam-A, then grooming or play on cam-B. */
  function Pair101(i: nat): seq<Event> {
    [SeedEvent(25 + 2 * i, "a-1", if i % 2 == 0 then "b-rest" else "b-feed", "s-101", "cam-A",
               Base + 60 * i, 50, 0.9),
     SeedEvent(26 + 2 * i, "a-1", if i % 3 == 0 then "b-groom" else "b-play", "s-101", "cam-B",
               Base + 60 * i + 6, 30, 0.9)]
  }

  /** Minute `i` of s-200: an alert every fourth minute, resting otherwise. */
  function Event200(i: nat): Event {
    SeedEvent(49 + i, "a-3", if i % 4 == 0 then "b-alert" else "b-rest", "s-200", "cam-C",
              Base + 60 * i, if i % 4 == 0 then 20 else 45, 0.8)
  }

  /** The events of minutes `0 .. n-1`, each minute contributing `f(i)`, in minute order. */
  function Minutes(f: nat -> seq<Event>, n: nat): seq<Event> {
    if n == 0 then [] else Minutes(f, n - 1) + f(n - 1)
  }

  function Seed100(n: nat): seq<Event> {
    Minutes(Pair100, n)
  }

  function Seed101(n: nat): seq<Event> {
    Minutes(Pair101, n)
  }

  function Minute200(i: nat): seq<Event> {
    [Event200(i)]
  }

  function Seed200(n: nat): seq<Event> {
    Minutes(Minute200, n)
  }

  /** The seeded event store, in the order the events are added. */
  function SeedStore(): seq<Event> {
    Seed100(Window) + Seed101(Window) + Seed200(AlertWindow)
  }

  function SeedReports(): map<string, Report> {
    map[
      "r-1" := Report("r-1", "Daily Summary - Luna", ["s-100", "s-101"], Base + 3600,
                      Some("Preview report with baseline comparison.")),
      "r-2" := Report("r-2", "Alert Monitor - Koda", ["s-200"], Base + 7200,
                      Some("High alert frequency check."))]
  }

  /**
   * Against the seeded reports, the summary endpoint summarises s-100 and
   * s-101 for r-1 and s-200 for r-2, whatever session list comes with the
   * request, and answers any other non-empty report id with a 404.
   */
  lemma SeedReportSummary(store: seq<Event>, sessionId: Option<seq<string>>, reportId: string,
                          heatmapScaling: Option<string>)
    requires heatmapScaling.None? || ValidScaling(heatmapScaling.value)
    ensures var res := SummaryRoute(store, SeedReports(), sessionId, Some(reportId), heatmapScaling);
            var scaling := if heatmapScaling.Some? then heatmapScaling.value else "auto";
            && (reportId == "r-1" ==> res == Ok(ComputeSummary(store, ["s-100", "s-101"], scaling)))
            && (reportId == "r-2" ==> res == Ok(ComputeSummary(store, ["s-200"], scaling)))
            && (reportId != "" && reportId != "r-1" && reportId != "r-2" ==>
                  res == Err(HttpError(404, "Report not found")))
  {
  }

  /** How many events showing `b` the minutes `0 .. n-1` hold between them. */
  function Hits(f: nat -> seq<Event>, b: string, n: nat): nat {
    if n == 0 then 0 else Hits(f, b, n - 1) + |Select(f(n - 1), BehaviorOf, b)|
  }

  /** Every minute's events showing `b` last `d` seconds each, in total. */
  ghost predicate Uniform(f: nat -> seq<Event>, b: string, d: int) {
    forall i: nat :: SumW(Select(f(i), BehaviorOf, b), DurationOf) == d * |Select(f(i), BehaviorOf, b)|
  }

  /** Selecting `b` from the minutes collects each minute's share of events. */
  lemma {:induction false} MinutesCount(f: nat -> seq<Event>, b: string, n: nat)
    ensures |Select(Minutes(f, n), BehaviorOf, b)| == Hits(f, b, n)
  {
    if n > 0 {
      var m, p := Minutes(f, n - 1), f(n - 1);
      assert Minutes(f, n) == m + p;
      MinutesCount(f, b, n - 1);
      SelectAppend(m, p, BehaviorOf, b);
    }
  }

  /** When every minute's share of `b` lasts `d` seconds per event, so does the whole. */
  lemma {:induction false} MinutesDuration(f: nat -> seq<Event>, b: string, d: int, n: nat)
    requires Uniform(f, b, d)
    ensures SumW(Select(Minutes(f, n), BehaviorOf, b), DurationOf) == d * Hits(f, b, n)
  {
    if n > 0 {
      var m, p := Minutes(f, n - 1), f(n - 1);
      var h, c := Hits(f, b, n - 1), |Select(p, BehaviorOf, b)|;
      var before, after := SumW(Select(m, BehaviorOf, b), DurationOf), SumW(Select(m + p, BehaviorOf, b), DurationOf);
      assert before == d * h by {
        MinutesDuration(f, b, d, n - 1);
      }
      assert after == before + d * c by {
        assert SumW(Select(p, BehaviorOf, b), DurationOf) == d * c;
        AppendShare(m, p, b, d);
      }
      MulAdd(d, h, c, before, after);
      assert Minutes(f, n) == m + p;
      assert Hits(f, b, n) == h + c;
    }
  }

  /** Selecting `b` from the minutes: the count and the total duration. */
  lemma MinutesSelect(f: nat -> seq<Event>, b: string, d: int, n: nat)
    requires Uniform(f, b, d)
    ensures |Select(Minutes(f, n), BehaviorOf, b)| == Hits(f, b, n)
    ensures SumW(Select(Minutes(f, n), BehaviorOf, b), DurationOf) == d * Hits(f, b, n)
  {
    MinutesCount(f, b, n);
    MinutesDuration(f, b, d, n);
  }

  /** Appending a block whose `b` events last `d` seconds each keeps the total at `d` per event. */
  lemma AppendShare(xs: seq<Event>, p: seq<Event>, b: string, d: int)
    requires SumW(Select(p, BehaviorOf, b), DurationOf) == d * |Select(p, BehaviorOf, b)|
    ensures SumW(Select(xs + p, BehaviorOf, b), DurationOf)
         == SumW(Select(xs, BehaviorOf, b), DurationOf) + d * |Select(p, BehaviorOf, b)|
  {
    SelectAppend(xs, p, BehaviorOf, b);
    SumWAppend(Select(xs, BehaviorOf, b), Select(p, BehaviorOf, b), DurationOf);
  }

  /** If `s` is `d` per unit over `a` units, adding `d` per unit over `b` more units keeps it so. */
  lemma MulAdd(d: int, a: int, b: int, s: int, t: int)
    requires s == d * a && t == s + d * b
    ensures t == d * (a + b)
  {
  }

  /** The share of `b` in a minute of two events, each lasting `d` seconds when it shows `b`. */
  lemma PairShare(p: seq<Event>, b: string, d: int)
    requires |p| == 2
    requires p[0].behaviorId == b ==> DurationOf(p[0]) == d
    requires p[1].behaviorId == b ==> DurationOf(p[1]) == d
    ensures |Select(p, BehaviorOf, b)| == (if p[0].behaviorId == b then 1 else 0) + (if p[1].behaviorId == b then 1 else 0)
    ensures SumW(Select(p, BehaviorOf, b), DurationOf) == d * |Select(p, BehaviorOf, b)|
  {
    assert p == [p[0], p[1]];
    SelectTwo(p[0], p[1], BehaviorOf, b, DurationOf);
  }

  /** Minute `i` of s-100 has two events; the first feeds (40 s) in even minutes and rests (55 s) otherwise. */
  lemma First100(i: nat)
    ensures |Pair100(i)| == 2
    ensures Pair100(i)[0].behaviorId == (if i % 2 == 0 then "b-feed" else "b-rest")
    ensures DurationOf(Pair100(i)[0]) == (if i % 2 == 0 then 40 else 55)
  {
  }

  /** The second event of minute `i` of s-100 plays every third minute and grooms otherwise, for 35 s. */
  lemma Second100(i: nat)
    ensures |Pair100(i)| == 2
    ensures Pair100(i)[1].behaviorId == (if i % 3 == 0 then "b-play" else "b-groom")
    ensures DurationOf(Pair100(i)[1]) == 35
  {
  }

  /** Minute `i` of s-101 has two events; the first rests in even minutes and feeds otherwise, for 50 s. */
  lemma First101(i: nat)
    ensures |Pair101(i)| == 2
    ensures Pair101(i)[0].behaviorId == (if i % 2 == 0 then "b-rest" else "b-feed")
    ensures DurationOf(Pair101(i)[0]) == 50
  {
  }

  /** The second event of minute `i` of s-101 grooms every third minute and plays otherwise, for 30 s. */
  lemma Second101(i: nat)
    ensures |Pair101(i)| == 2
    ensures Pair101(i)[1].behaviorId == (if i % 3 == 0 then "b-groom" else "b-play")
    ensures DurationOf(Pair101(i)[1]) == 30
  {
  }

  /** The number of even numbers below `n` grows by one at each even number. */
  lemma EvenStep(n: nat)
    requires n > 0
    ensures (n + 1) / 2 == ((n - 1) + 1) / 2 + (if (n - 1) % 2 == 0 then 1 else 0)
  {
  }

  /** The number of odd numbers below `n` grows by one at each odd number. */
  lemma OddStep(n: nat)
    requires n > 0
    ensures n / 2 == (n - 1) / 2 + (if (n - 1) % 2 == 1 then 1 else 0)
  {
  }

  /** The number of multiples of three below `n` grows by one at each multiple. */
  lemma ThirdStep(n: nat)
    requires n > 0
    ensures (n + 2) / 3 == ((n - 1) + 2) / 3 + (if (n - 1) % 3 == 0 then 1 else 0)
  {
  }

  /** The number of non-multiples of three below `n` grows by one at each of them. */
  lemma OtherThirdStep(n: nat)
    requires n > 0
    ensures n - (n + 2) / 3 == (n - 1) - ((n - 1) + 2) / 3 + (if (n - 1) % 3 > 0 then 1 else 0)
  {
  }

  lemma DistinctNames()
    ensures "b-rest" != "b-feed" && "b-play" != "b-feed" && "b-groom" != "b-feed"
    ensures "b-play" != "b-rest" && "b-groom" != "b-rest" && "b-groom" != "b-play"
  {
  }

  /** When `b` shows once in every even minute and never otherwise, it shows that often in the first `n` minutes. */
  lemma {:induction false} EvenHits(f: nat -> seq<Event>, b: string, n: nat)
    requires forall i: nat :: |Select(f(i), BehaviorOf, b)| == (if i % 2 == 0 then 1 else 0)
    ensures Hits(f, b, n) == (n + 1) / 2
  {
    if n > 0 {
      EvenHits(f, b, n - 1);
      EvenStep(n);
    }
  }

  /** When `b` shows once in every odd minute and never otherwise, it shows that often in the first `n` minutes. */
  lemma {:induction false} OddHits(f: nat -> seq<Event>, b: string, n: nat)
    requires forall i: nat :: |Select(f(i), BehaviorOf, b)| == (if i % 2 == 1 then 1 else 0)
    ensures Hits(f, b, n) == n / 2
  {
    if n > 0 {
      OddHits(f, b, n - 1);
      OddStep(n);
    }
  }

  /** When `b` shows once in every third minute and never otherwise, it shows that often in the first `n` minutes. */
  lemma {:induction false} ThirdHits(f: nat -> seq<Event>, b: string, n: nat)
    requires forall i: nat :: |Select(f(i), BehaviorOf, b)| == (if i % 3 == 0 then 1 else 0)
    ensures Hits(f, b, n) == (n + 2) / 3
  {
    if n > 0 {
      ThirdHits(f, b, n - 1);
      ThirdStep(n);
    }
  }

  /** When `b` shows once in every minute that is not a multiple of three and never otherwise, it shows that often in the first `n` minutes. */
  lemma {:induction false} OtherThirdHits(f: nat -> seq<Event>, b: string, n: nat)
    requires forall i: nat :: |Select(f(i), BehaviorOf, b)| == (if i % 3 > 0 then 1 else 0)
    ensures Hits(f, b, n) == n - (n + 2) / 3
  {
    if n > 0 {
      OtherThirdHits(f, b, n - 1);
      OtherThirdStep(n);
    }
  }

  /** Minute `i` of s-100 shows feed once when `i % 2 == 0`, for 40 seconds, and not otherwise. */
  lemma Feed100Minute(i: nat)
    ensures |Select(Pair100(i), BehaviorOf, "b-feed")| == (if i % 2 == 0 then 1 else 0)
    ensures SumW(Select(Pair100(i), BehaviorOf, "b-feed"), DurationOf) == 40 * |Select(Pair100(i), BehaviorOf, "b-feed")|
  {
    First100(i);
    Second100(i);
    DistinctNames();
    PairShare(Pair100(i), "b-feed", 40);
  }

  /** s-100 feeds on cam-A in every even minute, for 40 seconds. */
  lemma Feed100(n: nat)
    ensures |Select(Seed100(n), BehaviorOf, "b-feed")| == (n + 1) / 2
    ensures SumW(Select(Seed100(n), BehaviorOf, "b-feed"), DurationOf) == 40 * |Select(Seed100(n), BehaviorOf, "b-feed")|
  {
    forall i: nat
      ensures |Select(Pair100(i), BehaviorOf, "b-feed")| == (if i % 2 == 0 then 1 else 0)
      ensures SumW(Select(Pair100(i), BehaviorOf, "b-feed"), DurationOf) == 40 * |Select(Pair100(i), BehaviorOf, "b-feed")|
    {
      Feed100Minute(i);
    }
    MinutesSelect(Pair100, "b-feed", 40, n);
    EvenHits(Pair100, "b-feed", n);
  }

  /** Minute `i` of s-100 shows rest once when `i % 2 == 1`, for 55 seconds, and not otherwise. */
  lemma Rest100Minute(i: nat)
    ensures |Select(Pair100(i), BehaviorOf, "b-rest")| == (if i % 2 == 1 then 1 else 0)
    ensures SumW(Select(Pair100(i), BehaviorOf, "b-rest"), DurationOf) == 55 * |Select(Pair100(i), BehaviorOf, "b-rest")|
  {
    First100(i);
    Second100(i);
    DistinctNames();
    PairShare(Pair100(i), "b-rest", 55);
  }

  /** s-100 rests on cam-A in every odd minute, for 55 seconds. */
  lemma Rest100(n: nat)
    ensures |Select(Seed100(n), BehaviorOf, "b-rest")| == n / 2
    ensures SumW(Select(Seed100(n), BehaviorOf, "b-rest"), DurationOf) == 55 * |Select(Seed100(n), BehaviorOf, "b-rest")|
  {
    forall i: nat
      ensures |Select(Pair100(i), BehaviorOf, "b-rest")| == (if i % 2 == 1 then 1 else 0)
      ensures SumW(Select(Pair100(i), BehaviorOf, "b-rest"), DurationOf) == 55 * |Select(Pair100(i), BehaviorOf, "b-rest")|
    {
      Rest100Minute(i);
    }
    MinutesSelect(Pair100, "b-rest", 55, n);
    OddHits(Pair100, "b-rest", n);
  }

  /** Minute `i` of s-100 shows play once when `i % 3 == 0`, for 35 seconds, and not otherwise. */
  lemma Play100Minute(i: nat)
    ensures |Select(Pair100(i), BehaviorOf, "b-play")| == (if i % 3 == 0 then 1 else 0)
    ensures SumW(Select(Pair100(i), BehaviorOf, "b-play"), DurationOf) == 35 * |Select(Pair100(i), BehaviorOf, "b-play")|
  {
    First100(i);
    Second100(i);
    DistinctNames();
    PairShare(Pair100(i), "b-play", 35);
  }

  /** s-100 plays on cam-B in every third minute, for 35 seconds. */
  lemma Play100(n: nat)
    ensures |Select(Seed100(n), BehaviorOf, "b-play")| == (n + 2) / 3
    ensures SumW(Select(Seed100(n), BehaviorOf, "b-play"), DurationOf) == 35 * |Select(Seed100(n), BehaviorOf, "b-play")|
  {
    forall i: nat
      ensures |Select(Pair100(i), BehaviorOf, "b-play")| == (if i % 3 == 0 then 1 else 0)
      ensures SumW(Select(Pair100(i), BehaviorOf, "b-play"), DurationOf) == 35 * |Select(Pair100(i), BehaviorOf, "b-play")|
    {
      Play100Minute(i);
    }
    MinutesSelect(Pair100, "b-play", 35, n);
    ThirdHits(Pair100, "b-play", n);
  }

  /** Minute `i` of s-100 shows groom once when `i % 3 > 0`, for 35 seconds, and not otherwise. */
  lemma Groom100Minute(i: nat)
    ensures |Select(Pair100(i), BehaviorOf, "b-groom")| == (if i % 3 > 0 then 1 else 0)
    ensures SumW(Select(Pair100(i), BehaviorOf, "b-groom"), DurationOf) == 35 * |Select(Pair100(i), BehaviorOf, "b-groom")|
  {
    First100(i);
    Second100(i);
    DistinctNames();
    PairShare(Pair100(i), "b-groom", 35);
  }

  /** s-100 grooms on cam-B in the other minutes, for 35 seconds. */
  lemma Groom100(n: nat)
    ensures |Select(Seed100(n), BehaviorOf, "b-groom")| == n - (n + 2) / 3
    ensures SumW(Select(Seed100(n), BehaviorOf, "b-groom"), DurationOf) == 35 * |Select(Seed100(n), BehaviorOf, "b-groom")|
  {
    forall i: nat
      ensures |Select(Pair100(i), BehaviorOf, "b-groom")| == (if i % 3 > 0 then 1 else 0)
      ensures SumW(Select(Pair100(i), BehaviorOf, "b-groom"), DurationOf) == 35 * |Select(Pair100(i), BehaviorOf, "b-groom")|
    {
      Groom100Minute(i);
    }
    MinutesSelect(Pair100, "b-groom", 35, n);
    OtherThirdHits(Pair100, "b-groom", n);
  }

  /** Minute `i` of s-101 shows rest once when `i % 2 == 0`, for 50 seconds, and not otherwise. */
  lemma Rest101Minute(i: nat)
    ensures |Select(Pair101(i), BehaviorOf, "b-rest")| == (if i % 2 == 0 then 1 else 0)
    ensures SumW(Select(Pair101(i), BehaviorOf, "b-rest"), DurationOf) == 50 * |Select(Pair101(i), BehaviorOf, "b-rest")|
  {
    First101(i);
    Second101(i);
    DistinctNames();
    PairShare(Pair101(i), "b-rest", 50);
  }

  /** s-101 rests on cam-A in every even minute, for 50 seconds. */
  lemma Rest101(n: nat)
    ensures |Select(Seed101(n), BehaviorOf, "b-rest")| == (n + 1) / 2
    ensures SumW(Select(Seed101(n), BehaviorOf, "b-rest"), DurationOf) == 50 * |Select(Seed101(n), BehaviorOf, "b-rest")|
  {
    forall i: nat
      ensures |Select(Pair101(i), BehaviorOf, "b-rest")| == (if i % 2 == 0 then 1 else 0)
      ensures SumW(Select(Pair101(i), BehaviorOf, "b-rest"), DurationOf) == 50 * |Select(Pair101(i), BehaviorOf, "b-rest")|
    {
      Rest101Minute(i);
    }
    MinutesSelect(Pair101, "b-rest", 50, n);
    EvenHits(Pair101, "b-rest", n);
  }

  /** Minute `i` of s-101 shows feed once when `i % 2 == 1`, for 50 seconds, and not otherwise. */
  lemma Feed101Minute(i: nat)
    ensures |Select(Pair101(i), BehaviorOf, "b-feed")| == (if i % 2 == 1 then 1 else 0)
    ensures SumW(Select(Pair101(i), BehaviorOf, "b-feed"), DurationOf) == 50 * |Select(Pair101(i), BehaviorOf, "b-feed")|
  {
    First101(i);
    Second101(i);
    DistinctNames();
    PairShare(Pair101(i), "b-feed", 50);
  }

  /** s-101 feeds on cam-A in every odd minute, for 50 seconds. */
  lemma Feed101(n: nat)
    ensures |Select(Seed101(n), BehaviorOf, "b-feed")| == n / 2
    ensures SumW(Select(Seed101(n), BehaviorOf, "b-feed"), DurationOf) == 50 * |Select(Seed101(n), BehaviorOf, "b-feed")|
  {
    forall i: nat
      ensures |Select(Pair101(i), BehaviorOf, "b-feed")| == (if i % 2 == 1 then 1 else 0)
      ensures SumW(Select(Pair101(i), BehaviorOf, "b-feed"), DurationOf) == 50 * |Select(Pair101(i), BehaviorOf, "b-feed")|
    {
      Feed101Minute(i);
    }
    MinutesSelect(Pair101, "b-feed", 50, n);
    OddHits(Pair101, "b-feed", n);
  }

  /** Minute `i` of s-101 shows groom once when `i % 3 == 0`, for 30 seconds, and not otherwise. */
  lemma Groom101Minute(i: nat)
    ensures |Select(Pair101(i), BehaviorOf, "b-groom")| == (if i % 3 == 0 then 1 else 0)
    ensures SumW(Select(Pair101(i), BehaviorOf, "b-groom"), DurationOf) == 30 * |Select(Pair101(i), BehaviorOf, "b-groom")|
  {
    First101(i);
    Second101(i);
    DistinctNames();
    PairShare(Pair101(i), "b-groom", 30);
  }

  /** s-101 grooms on cam-B in every third minute, for 30 seconds. */
  lemma Groom101(n: nat)
    ensures |Select(Seed101(n), BehaviorOf, "b-groom")| == (n + 2) / 3
    ensures SumW(Select(Seed101(n), BehaviorOf, "b-groom"), DurationOf) == 30 * |Select(Seed101(n), BehaviorOf, "b-groom")|
  {
    forall i: nat
      ensures |Select(Pair101(i), BehaviorOf, "b-groom")| == (if i % 3 == 0 then 1 else 0)
      ensures SumW(Select(Pair101(i), BehaviorOf, "b-groom"), DurationOf) == 30 * |Select(Pair101(i), BehaviorOf, "b-groom")|
    {
      Groom101Minute(i);
    }
    MinutesSelect(Pair101, "b-groom", 30, n);
    ThirdHits(Pair101, "b-groom", n);
  }

  /** Minute `i` of s-101 shows play once when `i % 3 > 0`, for 30 seconds, and not otherwise. */
  lemma Play101Minute(i: nat)
    ensures |Select(Pair101(i), BehaviorOf, "b-play")| == (if i % 3 > 0 then 1 else 0)
    ensures SumW(Select(Pair101(i), BehaviorOf, "b-play"), DurationOf) == 30 * |Select(Pair101(i), BehaviorOf, "b-play")|
  {
    First101(i);
    Second101(i);
    DistinctNames();
    PairShare(Pair101(i), "b-play", 30);
  }

  /** s-101 plays on cam-B in the other minutes, for 30 seconds. */
  lemma Play101(n: nat)
    ensures |Select(Seed101(n), BehaviorOf, "b-play")| == n - (n + 2) / 3
    ensures SumW(Select(Seed101(n), BehaviorOf, "b-play"), DurationOf) == 30 * |Select(Seed101(n), BehaviorOf, "b-play")|
  {
    forall i: nat
      ensures |Select(Pair101(i), BehaviorOf, "b-play")| == (if i % 3 > 0 then 1 else 0)
      ensures SumW(Select(Pair101(i), BehaviorOf, "b-play"), DurationOf) == 30 * |Select(Pair101(i), BehaviorOf, "b-play")|
    {
      Play101Minute(i);
    }
    MinutesSelect(Pair101, "b-play", 30, n);
    OtherThirdHits(Pair101, "b-play", n);
  }

  /** Every event of `xs` has its `key` among `vals`. */
  ghost predicate AllIn(xs: seq<Event>, key: Event -> string, vals: set<string>) {
    forall e :: e in xs ==> key(e) in vals
  }

  /** What holds of every minute's events holds of all the minutes' events. */
  lemma {:induction false} MinutesAllIn(f: nat -> seq<Event>, n: nat, key: Event -> string, vals: set<string>)
    requires forall i: nat :: AllIn(f(i), key, vals)
    ensures AllIn(Minutes(f, n), key, vals)
  {
    if n > 0 {
      MinutesAllIn(f, n - 1, key, vals);
      assert AllIn(f(n - 1), key, vals);
      assert forall e :: e in Minutes(f, n) ==> e in Minutes(f, n - 1) || e in f(n - 1);
    }
  }

  /** The four behaviours the two cameras of s-100 and s-101 report. */
  function Activities(): set<string> {
    {"b-feed", "b-rest", "b-play", "b-groom"}
  }

  lemma NotActivity(b: string)
    requires b != "b-feed" && b != "b-rest" && b != "b-groom" && b != "b-play"
    ensures b !in Activities()
  {
  }

  lemma Seed100Members(n: nat)
    ensures AllIn(Seed100(n), SessionOf, {"s-100"})
    ensures AllIn(Seed100(n), BehaviorOf, Activities())
  {
    forall i: nat ensures AllIn(Pair100(i), SessionOf, {"s-100"}) && AllIn(Pair100(i), BehaviorOf, Activities()) {
      First100(i);
      Second100(i);
    }
    MinutesAllIn(Pair100, n, SessionOf, {"s-100"});
    MinutesAllIn(Pair100, n, BehaviorOf, Activities());
  }

  lemma Seed101Members(n: nat)
    ensures AllIn(Seed101(n), SessionOf, {"s-101"})
    ensures AllIn(Seed101(n), BehaviorOf, Activities())
  {
    forall i: nat ensures AllIn(Pair101(i), SessionOf, {"s-101"}) && AllIn(Pair101(i), BehaviorOf, Activities()) {
      First101(i);
      Second101(i);
    }
    MinutesAllIn(Pair101, n, SessionOf, {"s-101"});
    MinutesAllIn(Pair101, n, BehaviorOf, Activities());
  }

  lemma Seed200Members(n: nat)
    ensures AllIn(Seed200(n), SessionOf, {"s-200"})
  {
    MinutesAllIn(Minute200, n, SessionOf, {"s-200"});
  }

  /** Filtering the three blocks of the seeded store by s-100 gives back exactly its block. */
  lemma SeedSession100(n: nat, m: nat, k: nat)
    ensures EventsForSessions(Seed100(n) + Seed101(m) + Seed200(k), ["s-100"]) == Seed100(n)
  {
    var a, b, c := Seed100(n), Seed101(m), Seed200(k);
    Seed100Members(n);
    Seed101Members(m);
    Seed200Members(k);
    EventsForSessionsAppend(a + b, c, ["s-100"]);
    EventsForSessionsAppend(a, b, ["s-100"]);
    EventsForSessionsLength(a, ["s-100"]);
    EventsForSessionsLength(b, ["s-100"]);
    EventsForSessionsLength(c, ["s-100"]);
  }

  /** Filtering the three blocks of the seeded store by s-101 gives back exactly its block. */
  lemma SeedSession101(n: nat, m: nat, k: nat)
    ensures EventsForSessions(Seed100(n) + Seed101(m) + Seed200(k), ["s-101"]) == Seed101(m)
  {
    Seed100Members(n);
    Seed101Members(m);
    Seed200Members(k);
    MiddleBlock(Seed100(n), Seed101(m), Seed200(k), "s-101");
  }

  /** When only the middle block belongs to session `s`, filtering by `s` gives back that block. */
  lemma MiddleBlock(a: seq<Event>, b: seq<Event>, c: seq<Event>, s: string)
    requires forall e :: e in a ==> e.sessionId != s
    requires forall e :: e in b ==> e.sessionId == s
    requires forall e :: e in c ==> e.sessionId != s
    ensures EventsForSessions(a + b + c, [s]) == b
  {
    SkipBlock(a + b, c, s);
    SkipBlock(a, b, s);
    EventsForSessionsLength(b, [s]);
  }

  /** The events of `x` and `y` filtered by `s` are those of `x` when `y` has none of session `s`, and dually. */
  lemma SkipBlock(x: seq<Event>, y: seq<Event>, s: string)
    ensures (forall e :: e in y ==> e.sessionId != s) ==> EventsForSessions(x + y, [s]) == EventsForSessions(x, [s])
    ensures (forall e :: e in x ==> e.sessionId != s) ==> EventsForSessions(x + y, [s]) == EventsForSessions(y, [s])
  {
    EventsForSessionsAppend(x, y, [s]);
    EventsForSessionsLength(x, [s]);
    EventsForSessionsLength(y, [s]);
  }

  /** A behaviour outside `vals` is never selected from events whose behaviours all lie in `vals`. */
  lemma {:induction false} SelectOutside(xs: seq<Event>, vals: set<string>, b: string)
    requires AllIn(xs, BehaviorOf, vals) && b !in vals
    ensures Select(xs, BehaviorOf, b) == []
  {
    if xs != [] {
      var p := xs[..|xs| - 1];
      assert forall e :: e in p ==> e in xs;
      SelectOutside(p, vals, b);
      assert xs[|xs| - 1] in xs;
    }
  }

  /** The store holds exactly the seeded events for sessions s-100 and s-101, in seeding order. */
  ghost predicate Seeded(store: seq<Event>, n: nat) {
    && EventsForSessions(store, ["s-100"]) == Seed100(n)
    && EventsForSessions(store, ["s-101"]) == Seed101(n)
  }

  /** The seeded store is such a store. */
  lemma SeedStoreSeeded()
    ensures Seeded(SeedStore(), Window)
  {
    SeedSession100(Window, Window, AlertWindow);
    SeedSession101(Window, Window, AlertWindow);
  }

  /** The events of s-100 in the seeded store are the 24 of its block. */
  lemma SeedEventsOf100(store: seq<Event>, n: nat, b: string)
    requires n == Window && Seeded(store, n)
    ensures EventsOf(store, "s-100", b) == Select(Seed100(n), BehaviorOf, b)
  {
  }

  /** The events of s-101 in the seeded store are the 24 of its block. */
  lemma SeedEventsOf101(store: seq<Event>, n: nat, b: string)
    requires n == Window && Seeded(store, n)
    ensures EventsOf(store, "s-101", b) == Select(Seed101(n), BehaviorOf, b)
  {
  }

  /**
   * A session whose events `xs` show only behaviours of `vals`, each of them
   * at least once, has exactly `vals` as its behaviours.
   */
  lemma BehaviorsExactly(store: seq<Event>, s: string, xs: seq<Event>, vals: set<string>)
    requires EventsForSessions(store, [s]) == xs
    requires AllIn(xs, BehaviorOf, vals)
    requires forall b :: b in vals ==> Select(xs, BehaviorOf, b) != []
    ensures Behaviors(Agg(store, s)) == vals
  {
    forall b ensures b in Behaviors(Agg(store, s)) <==> b in vals {
      AggSpec(store, s, b);
      if b !in vals {
        SelectOutside(xs, vals, b);
      }
    }
  }

  /** Session s-100 shows exactly the four activities. */
  lemma SeedBehaviors100(store: seq<Event>, n: nat)
    requires n == Window && Seeded(store, n)
    ensures Behaviors(Agg(store, "s-100")) == Activities()
  {
    Seed100Members(n);
    Shows100(n);
    BehaviorsExactly(store, "s-100", Seed100(n), Activities());
  }

  /** From the second minute on, s-100 has shown each of the four activities. */
  lemma Shows100(n: nat)
    requires n >= 2
    ensures forall b :: b in Activities() ==> Select(Seed100(n), BehaviorOf, b) != []
  {
    forall b | b in Activities() ensures Select(Seed100(n), BehaviorOf, b) != [] {
      if b == "b-feed" {
        Feed100(n);
      } else if b == "b-rest" {
        Rest100(n);
      } else if b == "b-play" {
        Play100(n);
      } else if b == "b-groom" {
        Groom100(n);
      }
    }
  }

  /** Session s-101 shows exactly the four activities. */
  lemma SeedBehaviors101(store: seq<Event>, n: nat)
    requires n == Window && Seeded(store, n)
    ensures Behaviors(Agg(store, "s-101")) == Activities()
  {
    Seed101Members(n);
    Shows101(n);
    BehaviorsExactly(store, "s-101", Seed101(n), Activities());
  }

  /** From the second minute on, s-101 has shown each of the four activities. */
  lemma Shows101(n: nat)
    requires n >= 2
    ensures forall b :: b in Activities() ==> Select(Seed101(n), BehaviorOf, b) != []
  {
    forall b | b in Activities() ensures Select(Seed101(n), BehaviorOf, b) != [] {
      if b == "b-rest" {
        Rest101(n);
      } else if b == "b-feed" {
        Feed101(n);
      } else if b == "b-groom" {
        Groom101(n);
      } else if b == "b-play" {
        Play101(n);
      }
    }
  }

  lemma FeedStats100(store: seq<Event>, n: nat)
    requires n == Window && Seeded(store, n)
    ensures |EventsOf(store, "s-100", "b-feed")| == 6
    ensures SumW(EventsOf(store, "s-100", "b-feed"), DurationOf) == 240
  {
    var xs := Select(Seed100(n), BehaviorOf, "b-feed");
    assert |xs| == 6 && SumW(xs, DurationOf) == 40 * |xs| by {
      Feed100(n);
    }
    SeedEventsOf100(store, n, "b-feed");
  }

  lemma FeedStats101(store: seq<Event>, n: nat)
    requires n == Window && Seeded(store, n)
    ensures |EventsOf(store, "s-101", "b-feed")| == 6
    ensures SumW(EventsOf(store, "s-101", "b-feed"), DurationOf) == 300
  {
    var xs := Select(Seed101(n), BehaviorOf, "b-feed");
    assert |xs| == 6 && SumW(xs, DurationOf) == 50 * |xs| by {
      Feed101(n);
    }
    SeedEventsOf101(store, n, "b-feed");
  }

  lemma RestStats100(store: seq<Event>, n: nat)
    requires n == Window && Seeded(store, n)
    ensures |EventsOf(store, "s-100", "b-rest")| == 6
    ensures SumW(EventsOf(store, "s-100", "b-rest"), DurationOf) == 330
  {
    var xs := Select(Seed100(n), BehaviorOf, "b-rest");
    assert |xs| == 6 && SumW(xs, DurationOf) == 55 * |xs| by {
      Rest100(n);
    }
    SeedEventsOf100(store, n, "b-rest");
  }

  lemma RestStats101(store: seq<Event>, n: nat)
    requires n == Window && Seeded(store, n)
    ensures |EventsOf(store, "s-101", "b-rest")| == 6
    ensures SumW(EventsOf(store, "s-101", "b-rest"), DurationOf) == 300
  {
    var xs := Select(Seed101(n), BehaviorOf, "b-rest");
    assert |xs| == 6 && SumW(xs, DurationOf) == 50 * |xs| by {
      Rest101(n);
    }
    SeedEventsOf101(store, n, "b-rest");
  }

  lemma PlayStats100(store: seq<Event>, n: nat)
    requires n == Window && Seeded(store, n)
    ensures |EventsOf(store, "s-100", "b-play")| == 4
    ensures SumW(EventsOf(store, "s-100", "b-play"), DurationOf) == 140
  {
    var xs := Select(Seed100(n), BehaviorOf, "b-play");
    assert |xs| == 4 && SumW(xs, DurationOf) == 35 * |xs| by {
      Play100(n);
    }
    SeedEventsOf100(store, n, "b-play");
  }

  lemma PlayStats101(store: seq<Event>, n: nat)
    requires n == Window && Seeded(store, n)
    ensures |EventsOf(store, "s-101", "b-play")| == 8
    ensures SumW(EventsOf(store, "s-101", "b-play"), DurationOf) == 240
  {
    var xs := Select(Seed101(n), BehaviorOf, "b-play");
    assert |xs| == 8 && SumW(xs, DurationOf) == 30 * |xs| by {
      Play101(n);
    }
    SeedEventsOf101(store, n, "b-play");
  }

  lemma GroomStats100(store: seq<Event>, n: nat)
    requires n == Window && Seeded(store, n)
    ensures |EventsOf(store, "s-100", "b-groom")| == 8
    ensures SumW(EventsOf(store, "s-100", "b-groom"), DurationOf) == 280
  {
    var xs := Select(Seed100(n), BehaviorOf, "b-groom");
    assert |xs| == 8 && SumW(xs, DurationOf) == 35 * |xs| by {
      Groom100(n);
    }
    SeedEventsOf100(store, n, "b-groom");
  }

  lemma GroomStats101(store: seq<Event>, n: nat)
    requires n == Window && Seeded(store, n)
    ensures |EventsOf(store, "s-101", "b-groom")| == 4
    ensures SumW(EventsOf(store, "s-101", "b-groom"), DurationOf) == 120
  {
    var xs := Select(Seed101(n), BehaviorOf, "b-groom");
    assert |xs| == 4 && SumW(xs, DurationOf) == 30 * |xs| by {
      Groom101(n);
    }
    SeedEventsOf101(store, n, "b-groom");
  }

  /** The percent changes the seeded sessions give rise to. */
  lemma SamePct(t: int, u: int, t': int, u': int)
    requires t == t' && u == u'
    ensures PctDelta(t, u) == PctDelta(t', u')
  {
  }

  lemma SeedPercents()
    ensures PctDelta(6, 6) == 0.0 && PctDelta(240, 300) == -20.0 && PctDelta(330, 300) == 10.0
    ensures PctDelta(8, 4) == 100.0 && PctDelta(280, 120) == 400.0 / 3.0
    ensures PctDelta(4, 8) == -50.0 && PctDelta(140, 240) == -125.0 / 3.0
  {
  }

  /** Any duplicate-free listing of the four activities is a valid iteration order for s-100 against s-101. */
  lemma SeedOrder(store: seq<Event>, n: nat, order: seq<string>)
    requires n == Window && Seeded(store, n)
    requires Enumerates(order, Activities())
    ensures Enumerates(order, Behaviors(Agg(store, "s-100")) + Behaviors(Agg(store, "s-101")))
  {
    SeedBehaviors100(store, n);
    SeedBehaviors101(store, n);
  }

  /**
   * Comparing s-100 with its baseline s-101: feeding and resting occur
   * equally often (count delta 0), grooming doubles (+100%) and play halves
   * (-50%); the duration deltas follow the differing event lengths.
   */
  lemma SeedDeltas(store: seq<Event>, n: nat, order: seq<string>)
    requires n == Window && Seeded(store, n)
    requires Enumerates(order, Activities())
    ensures Enumerates(order, Behaviors(Agg(store, "s-100")) + Behaviors(Agg(store, "s-101")))
    ensures var c := CompareSessions(store, "s-100", "s-101", order);
            && Get(c.deltas, "b-feed", Deltas(0.0, 0.0)) == Deltas(0.0, -20.0)
            && Get(c.deltas, "b-rest", Deltas(0.0, 0.0)) == Deltas(0.0, 10.0)
            && Get(c.deltas, "b-groom", Deltas(0.0, 0.0)) == Deltas(100.0, 400.0 / 3.0)
            && Get(c.deltas, "b-play", Deltas(0.0, 0.0)) == Deltas(-50.0, -125.0 / 3.0)
  {
    SeedOrder(store, n, order);
    SeedPercents();
    var c := CompareSessions(store, "s-100", "s-101", order);
    assert Get(c.deltas, "b-feed", Deltas(0.0, 0.0)) == Deltas(0.0, -20.0) by {
      FeedStats100(store, n);
      FeedStats101(store, n);
      ComparisonDeltas(store, "s-100", "s-101", order, "b-feed");
    }
    assert Get(c.deltas, "b-rest", Deltas(0.0, 0.0)) == Deltas(0.0, 10.0) by {
      RestStats100(store, n);
      RestStats101(store, n);
      ComparisonDeltas(store, "s-100", "s-101", order, "b-rest");
    }
    assert Get(c.deltas, "b-groom", Deltas(0.0, 0.0)) == Deltas(100.0, 400.0 / 3.0) by {
      GroomStats100(store, n);
      GroomStats101(store, n);
      ComparisonDeltas(store, "s-100", "s-101", order, "b-groom");
    }
    assert Get(c.deltas, "b-play", Deltas(0.0, 0.0)) == Deltas(-50.0, -125.0 / 3.0) by {
      PlayStats100(store, n);
      PlayStats101(store, n);
      ComparisonDeltas(store, "s-100", "s-101", order, "b-play");
    }
  }

  /** The count change of each activity from s-101 to s-100: only grooming and play change. */
  lemma FeedCountPct(store: seq<Event>, n: nat)
    requires n == Window && Seeded(store, n)
    ensures PctDelta(|EventsOf(store, "s-100", "b-feed")|, |EventsOf(store, "s-101", "b-feed")|) == 0.0
  {
    assert |EventsOf(store, "s-100", "b-feed")| == 6 && |EventsOf(store, "s-101", "b-feed")| == 6 by {
      FeedStats100(store, n);
      FeedStats101(store, n);
    }
    SeedPercents();
    SamePct(|EventsOf(store, "s-100", "b-feed")|, |EventsOf(store, "s-101", "b-feed")|, 6, 6);
  }

  lemma RestCountPct(store: seq<Event>, n: nat)
    requires n == Window && Seeded(store, n)
    ensures PctDelta(|EventsOf(store, "s-100", "b-rest")|, |EventsOf(store, "s-101", "b-rest")|) == 0.0
  {
    assert |EventsOf(store, "s-100", "b-rest")| == 6 && |EventsOf(store, "s-101", "b-rest")| == 6 by {
      RestStats100(store, n);
      RestStats101(store, n);
    }
    SeedPercents();
    SamePct(|EventsOf(store, "s-100", "b-rest")|, |EventsOf(store, "s-101", "b-rest")|, 6, 6);
  }

  lemma GroomCountPct(store: seq<Event>, n: nat)
    requires n == Window && Seeded(store, n)
    ensures PctDelta(|EventsOf(store, "s-100", "b-groom")|, |EventsOf(store, "s-101", "b-groom")|) == 100.0
  {
    assert |EventsOf(store, "s-100", "b-groom")| == 8 && |EventsOf(store, "s-101", "b-groom")| == 4 by {
      GroomStats100(store, n);
      GroomStats101(store, n);
    }
    SeedPercents();
    SamePct(|EventsOf(store, "s-100", "b-groom")|, |EventsOf(store, "s-101", "b-groom")|, 8, 4);
  }

  lemma PlayCountPct(store: seq<Event>, n: nat)
    requires n == Window && Seeded(store, n)
    ensures PctDelta(|EventsOf(store, "s-100", "b-play")|, |EventsOf(store, "s-101", "b-play")|) == -50.0
  {
    assert |EventsOf(store, "s-100", "b-play")| == 4 && |EventsOf(store, "s-101", "b-play")| == 8 by {
      PlayStats100(store, n);
      PlayStats101(store, n);
    }
    SeedPercents();
    SamePct(|EventsOf(store, "s-100", "b-play")|, |EventsOf(store, "s-101", "b-play")|, 4, 8);
  }

  /** The comparison of s-100 with s-101 flags exactly the grooming increase and the play decrease. */
  lemma SeedFlags(store: seq<Event>, n: nat, order: seq<string>, f: Flag)
    requires n == Window && Seeded(store, n)
    requires Enumerates(order, Activities())
    ensures Enumerates(order, Behaviors(Agg(store, "s-100")) + Behaviors(Agg(store, "s-101")))
    ensures f in CompareSessions(store, "s-100", "s-101", order).flags
        <==> f == Increase("b-groom", 100.0) || f == Decrease("b-play", -50.0)
  {
    SeedOrder(store, n, order);
    ComparisonFlags(store, "s-100", "s-101", order, f);
    var b := f.behavior;
    assert b in order <==> b in Activities() by {
      assert b in order <==> b in (set x | x in order);
    }
    if b == "b-feed" {
      FeedCountPct(store, n);
    } else if b == "b-rest" {
      RestCountPct(store, n);
    } else if b == "b-groom" {
      GroomCountPct(store, n);
    } else if b == "b-play" {
      PlayCountPct(store, n);
    } else {
      NotActivity(b);
    }
  }

  /**
   * On the seeded store itself: comparing s-100 with s-101 leaves the
   * feeding count unchanged, and flags exactly the doubling of grooming
   * and the halving of play.
   */
  lemma SeedComparison(order: seq<string>, f: Flag)
    requires Enumerates(order, Activities())
    ensures Enumerates(order, Behaviors(Agg(SeedStore(), "s-100")) + Behaviors(Agg(SeedStore(), "s-101")))
    ensures var c := CompareSessions(SeedStore(), "s-100", "s-101", order);
            && Get(c.deltas, "b-feed", Deltas(0.0, 0.0)).countPct == 0.0
            && Get(c.deltas, "b-groom", Deltas(0.0, 0.0)).countPct == 100.0
            && Get(c.deltas, "b-play", Deltas(0.0, 0.0)).countPct == -50.0
            && (f in c.flags <==> f == Increase("b-groom", 100.0) || f == Decrease("b-play", -50.0))
  {
    SeedStoreSeeded();
    SeedDeltas(SeedStore(), Window, order);
    SeedFlags(SeedStore(), Window, order, f);
  }
}
