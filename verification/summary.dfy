/**
 * The analytics summary of a list of sessions: per-behaviour counts and
 * durations, per-behaviour minute trendlines, a per-camera minute heatmap
 * and the heatmap's scaling metadata.
 */
module Summary {
  import opened Dicts
  import opened Grouping
  import opened Events
  import opened Trendlines
  import opened Decimal

  datatype AnalyticsSummary = AnalyticsSummary(
    sessions: seq<string>,
    counts: Dict<string, int>,
    durations: Dict<string, int>,
    trendlines: Dict<string, seq<Point>>,
    heatmap: Dict<string, Dict<int, int>>,
    meta: Dict<string, string>)

  /** Every cell value of a heatmap, row by row. */
  function AllCells(heat: Dict<string, Dict<int, int>>): seq<int> {
    if heat == [] then [] else CellsOf(heat[0].1) + AllCells(heat[1..])
  }

  function CellsOf(row: Dict<int, int>): seq<int> {
    seq(|row|, j requires 0 <= j < |row| => row[j].1)
  }

  /** `max(vals) if vals else dflt`. */
  function MaxOr(vals: seq<int>, dflt: int): (m: int)
    ensures vals == [] ==> m == dflt
    ensures vals != [] ==> m in vals && forall v :: v in vals ==> v <= m
  {
    if vals == [] then dflt
    else if |vals| == 1 then vals[0]
    else
      var m := MaxOr(vals[1..], dflt);
      assert forall v :: v in vals ==> v == vals[0] || v in vals[1..];
      if vals[0] >= m then vals[0] else m
  }

  /**
   * The "peak" reported for one session in session scaling mode: the largest
   * of a list holding a 1 for each of the session's events, or 1 when the
   * list is empty.
   */
  function SessionPeak(evs: seq<Event>, s: string): int {
    MaxOr(MapSeq(Select(evs, SessionOf, s), One), 1)
  }

  /** `session_peaks[s] = peak(s)` for each requested session id in order. */
  function SessionPeaks(evs: seq<Event>, sessionIds: seq<string>): Dict<string, int> {
    if sessionIds == [] then []
    else
      var s := sessionIds[|sessionIds| - 1];
      Put(SessionPeaks(evs, sessionIds[..|sessionIds| - 1]), s, SessionPeak(evs, s))
  }

  const SessionMaxPrefix := "session_max_"

  /**
   * `{f"session_max_{s}": str(v) for s, v in peaks.items()}`: one entry per
   * peak, keeping the order of the peaks (their keys are distinct because
   * the session ids are).
   */
  function PeakEntries(peaks: Dict<string, int>): Dict<string, string> {
    seq(|peaks|, i requires 0 <= i < |peaks| => (SessionMaxPrefix + peaks[i].0, IntToString(peaks[i].1)))
  }

  /** `meta.update({"min": lo, "max": hi, "palette": palette})` after the scaling entry. */
  function BoundsMeta(scaling: string, lo: string, hi: string, palette: string): Dict<string, string> {
    Update([("scaling", scaling)], [("min", lo), ("max", hi), ("palette", palette)])
  }

  /** Session scaling: one `session_max_<id>` entry per requested session, then the palette. */
  function SessionMeta(evs: seq<Event>, sessionIds: seq<string>): Dict<string, string> {
    Put(Update([("scaling", "session")], PeakEntries(SessionPeaks(evs, sessionIds))), "palette", "magma")
  }

  /** The heatmap metadata for a scaling mode; any mode other than fixed or session is auto. */
  function HeatmapMeta(sessionIds: seq<string>, scaling: string, evs: seq<Event>,
                       heat: Dict<string, Dict<int, int>>): Dict<string, string>
  {
    if scaling == "fixed" then BoundsMeta("fixed", "0", "10", "viridis")
    else if scaling == "session" then SessionMeta(evs, sessionIds)
    else BoundsMeta(scaling, "0", IntToString(MaxOr(AllCells(heat), 1)), "plasma")
  }

  /**
   * The summary of the listed sessions.  The source fills the four dicts in
   * one pass over the events; each update reads and writes only its own
   * dict, so four passes in the same event order give the same dicts.
   */
  function ComputeSummary(store: seq<Event>, sessionIds: seq<string>, scaling: string): AnalyticsSummary {
    var evs := EventsForSessions(store, sessionIds);
    var heat := Grid(evs, CameraOf, StartBucket);
    AnalyticsSummary(
      sessionIds,
      Tally(evs, BehaviorOf, One),
      Tally(evs, BehaviorOf, DurationOf),
      SortTrendlines(Grid(evs, BehaviorOf, StartBucket)),
      heat,
      HeatmapMeta(sessionIds, scaling, evs, heat))
  }

  /**
   * Counts cover exactly the behaviours seen in the listed sessions, each
   * with its number of events; together they count every selected event.
   */
  lemma SummaryCounts(store: seq<Event>, sessionIds: seq<string>, scaling: string, b: string)
    ensures var evs := EventsForSessions(store, sessionIds);
            var counts := ComputeSummary(store, sessionIds, scaling).counts;
            && Wf(counts)
            && Get(counts, b, 0) == |Select(evs, BehaviorOf, b)|
            && (HasKey(counts, b) <==> Select(evs, BehaviorOf, b) != [])
            && SumValues(counts) == |evs|
  {
    var evs := EventsForSessions(store, sessionIds);
    TallyKeys(evs, BehaviorOf, One);
    TallyGet(evs, BehaviorOf, One, b);
    SumOne(Select(evs, BehaviorOf, b));
    TallyHasKey(evs, BehaviorOf, One, b);
    TallySum(evs, BehaviorOf, One);
    SumOne(evs);
  }

  /** Each behaviour's duration is the sum of `end - start` over its events. */
  lemma SummaryDurations(store: seq<Event>, sessionIds: seq<string>, scaling: string, b: string)
    ensures var evs := EventsForSessions(store, sessionIds);
            var durations := ComputeSummary(store, sessionIds, scaling).durations;
            && Wf(durations)
            && Get(durations, b, 0) == SumW(Select(evs, BehaviorOf, b), DurationOf)
            && SumValues(durations) == SumW(evs, DurationOf)
  {
    var evs := EventsForSessions(store, sessionIds);
    TallyKeys(evs, BehaviorOf, DurationOf);
    TallyGet(evs, BehaviorOf, DurationOf, b);
    TallySum(evs, BehaviorOf, DurationOf);
  }

  /**
   * Counts, durations and trendlines list the same behaviours in the same
   * order: the order in which each behaviour first occurs among the events.
   */
  lemma SummarySameKeys(store: seq<Event>, sessionIds: seq<string>, scaling: string)
    ensures var evs := EventsForSessions(store, sessionIds);
            var s := ComputeSummary(store, sessionIds, scaling);
            && Keys(s.counts) == Distinct(MapSeq(evs, BehaviorOf))
            && Keys(s.durations) == Keys(s.counts)
            && Keys(s.trendlines) == Keys(s.counts)
  {
    var evs := EventsForSessions(store, sessionIds);
    var g := Grid(evs, BehaviorOf, StartBucket);
    TallyKeys(evs, BehaviorOf, One);
    TallyKeys(evs, BehaviorOf, DurationOf);
    GridKeys(evs, BehaviorOf, StartBucket);
    SortTrendlinesSpec(g, "");
  }

  /**
   * A behaviour's trendline lists its minutes in strictly ascending order,
   * each with the number of its events starting in that minute (at least
   * one), and its counts add up to the behaviour's count.
   */
  lemma SummaryTrendline(store: seq<Event>, sessionIds: seq<string>, scaling: string, b: string)
    ensures var evs := EventsForSessions(store, sessionIds);
            var s := ComputeSummary(store, sessionIds, scaling);
            var tl := Get(s.trendlines, b, []);
            && StrictlyAscending(tl)
            && (forall p :: p in tl <==>
                  p.1 >= 1 && p.1 == |Select(Select(evs, BehaviorOf, b), StartBucket, p.0)|)
            && SumValues(tl) == Get(s.counts, b, 0)
  {
    var evs := EventsForSessions(store, sessionIds);
    var g := Grid(evs, BehaviorOf, StartBucket);
    var mine := Select(evs, BehaviorOf, b);
    var series := Tally(mine, StartBucket, One);
    SortTrendlinesSpec(g, b);
    GridRow(evs, BehaviorOf, StartBucket, b);
    assert Get(g, b, []) == series;
    var tl := SortPoints(series);
    SortPointsSpec(series);
    TallyKeys(mine, StartBucket, One);
    WfDistinctBuckets(series);
    CountTallyMembers(mine, StartBucket);
    assert forall p :: p in tl <==> p in multiset(tl);
    assert forall p :: p in series <==> p in multiset(series);
    TallySum(mine, StartBucket, One);
    SumOne(mine);
    SummaryCounts(store, sessionIds, scaling, b);
  }

  /**
   * A camera's heatmap row holds, for each minute, the number of the
   * camera's events starting in it; the row adds up to the camera's event
   * count and the whole heatmap to the number of selected events.
   */
  lemma SummaryHeatmap(store: seq<Event>, sessionIds: seq<string>, scaling: string, c: string)
    ensures var evs := EventsForSessions(store, sessionIds);
            var heat := ComputeSummary(store, sessionIds, scaling).heatmap;
            var row := Get(heat, c, []);
            && Keys(heat) == Distinct(MapSeq(evs, CameraOf))
            && (forall p :: p in row <==>
                  p.1 >= 1 && p.1 == |Select(Select(evs, CameraOf, c), StartBucket, p.0)|)
            && SumValues(row) == |Select(evs, CameraOf, c)|
            && SumRows(heat) == |evs|
  {
    var evs := EventsForSessions(store, sessionIds);
    var mine := Select(evs, CameraOf, c);
    GridKeys(evs, CameraOf, StartBucket);
    GridRow(evs, CameraOf, StartBucket, c);
    CountTallyMembers(mine, StartBucket);
    TallySum(mine, StartBucket, One);
    SumOne(mine);
    GridTotal(evs, CameraOf, StartBucket);
  }

  /** The metadata always starts with the requested scaling mode, and the summary echoes the session list. */
  lemma SummaryEchoes(store: seq<Event>, sessionIds: seq<string>, scaling: string)
    ensures var s := ComputeSummary(store, sessionIds, scaling);
            && s.sessions == sessionIds
            && |s.meta| >= 1 && s.meta[0] == ("scaling", scaling)
            && Get(s.meta, "scaling", "") == scaling
  {
    var evs := EventsForSessions(store, sessionIds);
    var heat := Grid(evs, CameraOf, StartBucket);
    var meta := HeatmapMeta(sessionIds, scaling, evs, heat);
    var m := [("scaling", scaling)];
    if scaling == "fixed" {
      HeatmapMetaFixed(store, sessionIds);
    } else if scaling == "session" {
      HeatmapMetaSession(store, sessionIds);
    } else {
      HeatmapMetaAuto(store, sessionIds, scaling);
    }
  }

  lemma BoundsMetaList(scaling: string, lo: string, hi: string, palette: string)
    ensures BoundsMeta(scaling, lo, hi, palette)
         == [("scaling", scaling), ("min", lo), ("max", hi), ("palette", palette)]
  {
    var other := [("min", lo), ("max", hi), ("palette", palette)];
    KeysAt(other, 0);
    KeysAt(other, 1);
    KeysAt(other, 2);
    UpdateFresh([("scaling", scaling)], other);
  }

  /** Fixed scaling: the bounds 0 and 10 and the viridis palette, whatever the data. */
  lemma HeatmapMetaFixed(store: seq<Event>, sessionIds: seq<string>)
    ensures ComputeSummary(store, sessionIds, "fixed").meta
         == [("scaling", "fixed"), ("min", "0"), ("max", "10"), ("palette", "viridis")]
  {
    BoundsMetaList("fixed", "0", "10", "viridis");
  }

  /** The session-peak list holds a 1 for each of the session's events. */
  lemma SessionPeakIsOne(evs: seq<Event>, s: string)
    ensures SessionPeak(evs, s) == 1
  {
    var vals := MapSeq(Select(evs, SessionOf, s), One);
    if vals != [] {
      var i :| 0 <= i < |vals| && vals[i] == SessionPeak(evs, s);
    }
  }

  /** One peak per distinct requested session, in order of first request, each equal to 1. */
  lemma {:induction false} SessionPeaksSpec(evs: seq<Event>, sessionIds: seq<string>)
    ensures Keys(SessionPeaks(evs, sessionIds)) == Distinct(sessionIds)
    ensures forall p :: p in SessionPeaks(evs, sessionIds) ==> p.1 == 1
  {
    if sessionIds != [] {
      var prefix := sessionIds[..|sessionIds| - 1];
      var s := sessionIds[|sessionIds| - 1];
      var d := SessionPeaks(evs, prefix);
      SessionPeaksSpec(evs, prefix);
      SessionPeakIsOne(evs, s);
      assert sessionIds == prefix + [s];
      PutDistinct(d, s, 1, prefix);
      PutKeys(d, s, 1);
    }
  }

  /** The `session_max_` keys expected for a list of distinct session ids, each with "1". */
  function SessionMaxEntries(ds: seq<string>): Dict<string, string> {
    seq(|ds|, i requires 0 <= i < |ds| => (SessionMaxPrefix + ds[i], "1"))
  }

  lemma PrefixedKeys(a: string, b: string)
    ensures SessionMaxPrefix + a == SessionMaxPrefix + b ==> a == b
    ensures |SessionMaxPrefix + a| >= 12
  {
    if SessionMaxPrefix + a == SessionMaxPrefix + b {
      assert a == (SessionMaxPrefix + a)[12..];
      assert b == (SessionMaxPrefix + b)[12..];
    }
  }

  /** The `session_max_` entries: one "1" per distinct requested session, with distinct keys. */
  lemma PeakEntriesSpec(evs: seq<Event>, sessionIds: seq<string>)
    ensures PeakEntries(SessionPeaks(evs, sessionIds)) == SessionMaxEntries(Distinct(sessionIds))
    ensures Wf(SessionMaxEntries(Distinct(sessionIds)))
  {
    var peaks := SessionPeaks(evs, sessionIds);
    var ds := Distinct(sessionIds);
    var entries := PeakEntries(peaks);
    SessionPeaksSpec(evs, sessionIds);
    DistinctFacts(sessionIds);
    assert IntToString(1) == "1";
    forall i | 0 <= i < |entries| ensures entries[i] == SessionMaxEntries(ds)[i] {
      KeysAt(peaks, i);
      assert peaks[i] in peaks;
    }
    assert entries == SessionMaxEntries(ds);
    forall i | 0 <= i < |entries| ensures Keys(entries)[i] == SessionMaxPrefix + ds[i] {
      KeysAt(entries, i);
    }
    forall i, j | 0 <= i < j < |entries| ensures Keys(entries)[i] != Keys(entries)[j] {
      PrefixedKeys(ds[i], ds[j]);
    }
  }

  /** Every key of the session-mode metadata other than its first is a long `session_max_` key. */
  lemma SessionMetaHead(ds: seq<string>)
    requires Wf(SessionMaxEntries(ds))
    ensures Update([("scaling", "session")], SessionMaxEntries(ds))
         == [("scaling", "session")] + SessionMaxEntries(ds)
    ensures forall k :: k in Keys([("scaling", "session")] + SessionMaxEntries(ds)) ==> |k| >= 12 || k == "scaling"
  {
    var entries := SessionMaxEntries(ds);
    forall i | 0 <= i < |entries| ensures entries[i].0 !in Keys([("scaling", "session")]) {
      PrefixedKeys(ds[i], "");
    }
    UpdateFresh([("scaling", "session")], entries);
    var head := [("scaling", "session")] + entries;
    forall k | k in Keys(head) ensures |k| >= 12 || k == "scaling" {
      var i :| 0 <= i < |Keys(head)| && Keys(head)[i] == k;
      KeysAt(head, i);
      if i > 0 {
        PrefixedKeys(ds[i - 1], "");
      }
    }
  }

  lemma MetaSession(evs: seq<Event>, sessionIds: seq<string>)
    ensures SessionMeta(evs, sessionIds)
         == [("scaling", "session")] + SessionMaxEntries(Distinct(sessionIds)) + [("palette", "magma")]
  {
    var ds := Distinct(sessionIds);
    PeakEntriesSpec(evs, sessionIds);
    SessionMetaHead(ds);
    PutFresh([("scaling", "session")] + SessionMaxEntries(ds), "palette", "magma");
  }

  /** No short key other than the mode and the palette appears among the session-mode keys. */
  lemma SessionMetaShortKey(ds: seq<string>, k: string)
    requires Wf(SessionMaxEntries(ds))
    requires |k| < 12 && k != "scaling" && k != "palette"
    ensures !HasKey([("scaling", "session")] + SessionMaxEntries(ds) + [("palette", "magma")], k)
  {
    var head := [("scaling", "session")] + SessionMaxEntries(ds);
    SessionMetaHead(ds);
    KeysAppend(head, [("palette", "magma")]);
    assert Keys([("palette", "magma")]) == ["palette"];
  }

  /**
   * Session scaling: after the mode, one `session_max_<id>` entry with value
   * "1" per distinct requested session (whether or not it has events), then
   * the magma palette, and no min or max entry.
   */
  lemma HeatmapMetaSession(store: seq<Event>, sessionIds: seq<string>)
    ensures var meta := ComputeSummary(store, sessionIds, "session").meta;
            && meta == [("scaling", "session")] + SessionMaxEntries(Distinct(sessionIds)) + [("palette", "magma")]
            && !HasKey(meta, "min") && !HasKey(meta, "max")
  {
    var evs := EventsForSessions(store, sessionIds);
    MetaSession(evs, sessionIds);
    PeakEntriesSpec(evs, sessionIds);
    SessionMetaShortKey(Distinct(sessionIds), "min");
    SessionMetaShortKey(Distinct(sessionIds), "max");
  }

  /** `v` is the value of some cell of the heatmap. */
  predicate IsCell(heat: Dict<string, Dict<int, int>>, v: int) {
    exists i, j :: 0 <= i < |heat| && 0 <= j < |heat[i].1| && heat[i].1[j].1 == v
  }

  /** `m` is the value of a cell and no cell holds more. */
  predicate IsLargestCell(heat: Dict<string, Dict<int, int>>, m: int) {
    && IsCell(heat, m)
    && forall i, j :: 0 <= i < |heat| && 0 <= j < |heat[i].1| ==> heat[i].1[j].1 <= m
  }

  lemma {:induction false} AllCellsMembers(heat: Dict<string, Dict<int, int>>)
    ensures forall v :: v in AllCells(heat) <==> IsCell(heat, v)
  {
    if heat != [] {
      var rest := heat[1..];
      AllCellsMembers(rest);
      forall v ensures v in AllCells(heat) <==> IsCell(heat, v) {
        if v in CellsOf(heat[0].1) {
          var j :| 0 <= j < |heat[0].1| && CellsOf(heat[0].1)[j] == v;
          assert heat[0].1[j].1 == v;
        } else if IsCell(rest, v) {
          var i, j :| 0 <= i < |rest| && 0 <= j < |rest[i].1| && rest[i].1[j].1 == v;
          assert heat[i + 1].1[j].1 == v;
        }
        if IsCell(heat, v) {
          var i, j :| 0 <= i < |heat| && 0 <= j < |heat[i].1| && heat[i].1[j].1 == v;
          if i == 0 {
            assert CellsOf(heat[0].1)[j] == v;
          } else {
            assert rest[i - 1].1[j].1 == v;
          }
        }
      }
    }
  }

  lemma {:induction false} SomeCell(heat: Dict<string, Dict<int, int>>)
    requires SumRows(heat) != 0
    ensures exists i :: 0 <= i < |heat| && heat[i].1 != []
  {
    if heat[0].1 == [] {
      SomeCell(heat[1..]);
      var i :| 0 <= i < |heat[1..]| && heat[1..][i].1 != [];
      assert heat[i + 1].1 != [];
    }
  }

  /** A heatmap with some count has a largest cell, and it is the maximum of all cells. */
  lemma LargestCell(heat: Dict<string, Dict<int, int>>)
    requires SumRows(heat) != 0
    ensures IsLargestCell(heat, MaxOr(AllCells(heat), 1))
  {
    var m := MaxOr(AllCells(heat), 1);
    SomeCell(heat);
    var i :| 0 <= i < |heat| && heat[i].1 != [];
    AllCellsMembers(heat);
    assert IsCell(heat, heat[i].1[0].1);
    forall i, j | 0 <= i < |heat| && 0 <= j < |heat[i].1| ensures heat[i].1[j].1 <= m {
      assert IsCell(heat, heat[i].1[j].1);
    }
  }

  /**
   * Any other scaling mode (auto): bounds from 0 to the largest heatmap
   * cell, or to 1 when no event is selected, and the plasma palette.
   */
  lemma HeatmapMetaAuto(store: seq<Event>, sessionIds: seq<string>, scaling: string)
    requires scaling != "fixed" && scaling != "session"
    ensures var evs := EventsForSessions(store, sessionIds);
            var s := ComputeSummary(store, sessionIds, scaling);
            && |s.meta| == 4
            && s.meta[0] == ("scaling", scaling)
            && s.meta[1] == ("min", "0")
            && s.meta[2].0 == "max"
            && s.meta[3] == ("palette", "plasma")
            && (evs == [] ==> s.meta[2].1 == "1")
            && (evs != [] ==> exists m :: IsLargestCell(s.heatmap, m) && s.meta[2].1 == IntToString(m))
  {
    var evs := EventsForSessions(store, sessionIds);
    var heat := Grid(evs, CameraOf, StartBucket);
    var m := MaxOr(AllCells(heat), 1);
    BoundsMetaList(scaling, "0", IntToString(m), "plasma");
    if evs == [] {
      assert IntToString(1) == "1";
    } else {
      GridTotal(evs, CameraOf, StartBucket);
      LargestCell(heat);
    }
  }
}
