/**
 * The CSV export of a report: the rows the writer emits, each of four
 * cells (section, key, sub-key, value).  Quoting and the text encoding of
 * numbers are not modelled; a cell is either text or a whole number.
 */
module Exporters {
  import opened Dicts
  import opened Grouping
  import opened Events
  import opened Trendlines
  import opened Decimal
  import opened Summary

  datatype Cell = Text(text: string) | Num(n: int)

  datatype Row = Row(section: string, key: string, subKey: Cell, value: Cell)

  const Header := Row("Section", "Key", Text("SubKey"), Text("Value"))

  /** One row per entry of a flat dict, with an empty sub-key. */
  function FlatRows(section: string, d: Dict<string, int>): seq<Row> {
    seq(|d|, i requires 0 <= i < |d| => Row(section, d[i].0, Text(""), Num(d[i].1)))
  }

  /** One row per (minute, count) point of one key. */
  function PointRows(section: string, key: string, pts: seq<Point>): seq<Row> {
    seq(|pts|, j requires 0 <= j < |pts| => Row(section, key, Num(pts[j].0), Num(pts[j].1)))
  }

  /** The points of every key in turn; trendlines and heatmap rows have this shape. */
  function NestedRows(section: string, d: Dict<string, seq<Point>>): seq<Row> {
    if d == [] then [] else PointRows(section, d[0].0, d[0].1) + NestedRows(section, d[1..])
  }

  function MetaRows(meta: Dict<string, string>): seq<Row> {
    seq(|meta|, i requires 0 <= i < |meta| => Row("heatmap_meta", meta[i].0, Text(""), Text(meta[i].1)))
  }

  /** The number of points over all keys. */
  function PointTotal(d: Dict<string, seq<Point>>): nat {
    if d == [] then 0 else |d[0].1| + PointTotal(d[1..])
  }

  /** The rows written for a summary, header first. */
  function Rows(s: AnalyticsSummary): seq<Row> {
    [Header]
    + FlatRows("counts_by_behavior", s.counts)
    + FlatRows("durations_by_behavior", s.durations)
    + NestedRows("trendlines", s.trendlines)
    + NestedRows("heatmap", s.heatmap)
    + MetaRows(s.meta)
  }

  /** The export of a report: its sessions summarised in auto scaling. */
  function ExportReportCsv(store: seq<Event>, report: Report): seq<Row> {
    Rows(ComputeSummary(store, report.sessions, "auto"))
  }

  /** The position of a section in the file. */
  function SectionRank(section: string): int {
    if section == "counts_by_behavior" then 1
    else if section == "durations_by_behavior" then 2
    else if section == "trendlines" then 3
    else if section == "heatmap" then 4
    else if section == "heatmap_meta" then 5
    else 0
  }

  predicate RanksAscend(rows: seq<Row>) {
    forall i, j :: 0 <= i <= j < |rows| ==> SectionRank(rows[i].section) <= SectionRank(rows[j].section)
  }

  predicate AllInSection(rows: seq<Row>, section: string) {
    forall r :: r in rows ==> r.section == section
  }

  lemma {:induction false} NestedRowsShape(section: string, d: Dict<string, seq<Point>>)
    ensures |NestedRows(section, d)| == PointTotal(d)
    ensures forall r :: r in NestedRows(section, d) ==> r.section == section && r.subKey.Num? && r.value.Num?
  {
    if d != [] {
      NestedRowsShape(section, d[1..]);
    }
  }

  /** A nested row is present exactly when its key holds that point. */
  lemma {:induction false} NestedRowsMembers(section: string, d: Dict<string, seq<Point>>, k: string, m: int, c: int)
    ensures Row(section, k, Num(m), Num(c)) in NestedRows(section, d)
        <==> exists pts :: (k, pts) in d && (m, c) in pts
  {
    if d != [] {
      NestedRowsMembers(section, d[1..], k, m, c);
      var here := PointRows(section, d[0].0, d[0].1);
      assert Row(section, k, Num(m), Num(c)) in here <==> k == d[0].0 && (m, c) in d[0].1 by {
        if Row(section, k, Num(m), Num(c)) in here {
          var j :| 0 <= j < |here| && here[j] == Row(section, k, Num(m), Num(c));
          assert d[0].1[j] == (m, c);
        }
        if k == d[0].0 && (m, c) in d[0].1 {
          var j :| 0 <= j < |d[0].1| && d[0].1[j] == (m, c);
          assert here[j] == Row(section, k, Num(m), Num(c));
        }
      }
      assert forall p :: p in d <==> p == d[0] || p in d[1..];
    }
  }

  /** A flat row is present exactly when the dict holds that entry. */
  lemma FlatRowsMembers(section: string, d: Dict<string, int>, k: string, v: int)
    ensures Row(section, k, Text(""), Num(v)) in FlatRows(section, d) <==> (k, v) in d
  {
    var rows := FlatRows(section, d);
    if (k, v) in d {
      var i :| 0 <= i < |d| && d[i] == (k, v);
      assert rows[i] == Row(section, k, Text(""), Num(v));
    }
  }

  lemma MetaRowsMembers(meta: Dict<string, string>, k: string, v: string)
    ensures Row("heatmap_meta", k, Text(""), Text(v)) in MetaRows(meta) <==> (k, v) in meta
  {
    var rows := MetaRows(meta);
    if (k, v) in meta {
      var i :| 0 <= i < |meta| && meta[i] == (k, v);
      assert rows[i] == Row("heatmap_meta", k, Text(""), Text(v));
    }
  }

  /** Joining two blocks whose sections come in order keeps the sections in order. */
  lemma JoinBlocks(a: seq<Row>, b: seq<Row>, ra: int, rb: int)
    requires RanksAscend(a)
    requires forall r :: r in a ==> SectionRank(r.section) <= ra
    requires forall r :: r in b ==> SectionRank(r.section) == rb
    requires ra <= rb
    ensures RanksAscend(a + b)
  {
    var ab := a + b;
    forall i, j | 0 <= i <= j < |ab| ensures SectionRank(ab[i].section) <= SectionRank(ab[j].section) {
      if j < |a| {
        assert ab[i] == a[i] && ab[j] == a[j];
      } else if i < |a| {
        assert ab[i] in a && ab[j] in b;
      } else {
        assert ab[i] in b && ab[j] in b;
      }
    }
  }

  /** The blocks of the export carry their sections and sub-keys. */
  lemma RowsBlocks(s: AnalyticsSummary)
    ensures AllInSection(FlatRows("counts_by_behavior", s.counts), "counts_by_behavior")
    ensures AllInSection(FlatRows("durations_by_behavior", s.durations), "durations_by_behavior")
    ensures AllInSection(NestedRows("trendlines", s.trendlines), "trendlines")
    ensures AllInSection(NestedRows("heatmap", s.heatmap), "heatmap")
    ensures AllInSection(MetaRows(s.meta), "heatmap_meta")
  {
    NestedRowsShape("trendlines", s.trendlines);
    NestedRowsShape("heatmap", s.heatmap);
  }

  /** Five blocks of rows whose sections rank 1 to 5, in that order, ascend. */
  lemma FiveBlocks(c: seq<Row>, d: seq<Row>, t: seq<Row>, h: seq<Row>, m: seq<Row>)
    requires forall r :: r in c ==> SectionRank(r.section) == 1
    requires forall r :: r in d ==> SectionRank(r.section) == 2
    requires forall r :: r in t ==> SectionRank(r.section) == 3
    requires forall r :: r in h ==> SectionRank(r.section) == 4
    requires forall r :: r in m ==> SectionRank(r.section) == 5
    ensures RanksAscend(c + d + t + h + m)
    ensures forall r :: r in c + d + t + h + m ==> SectionRank(r.section) >= 1
  {
    JoinBlocks(c, d, 1, 2);
    JoinBlocks(c + d, t, 2, 3);
    JoinBlocks(c + d + t, h, 3, 4);
    JoinBlocks(c + d + t + h, m, 4, 5);
  }

  /**
   * The header comes first, then counts, durations, trendlines, heatmap
   * and metadata rows in that order.
   */
  lemma RowsOrder(s: AnalyticsSummary)
    ensures var rows := Rows(s);
            && rows[0] == Header
            && RanksAscend(rows[1..])
            && (forall r :: r in rows[1..] ==> SectionRank(r.section) >= 1)
  {
    var c := FlatRows("counts_by_behavior", s.counts);
    var d := FlatRows("durations_by_behavior", s.durations);
    var t := NestedRows("trendlines", s.trendlines);
    var h := NestedRows("heatmap", s.heatmap);
    var m := MetaRows(s.meta);
    RowsBlocks(s);
    FiveBlocks(c, d, t, h, m);
    assert Rows(s)[1..] == c + d + t + h + m;
  }

  /** Count, duration and metadata rows have an empty sub-key; trendline and heatmap rows a minute. */
  lemma RowsSubKeys(s: AnalyticsSummary)
    ensures forall r :: r in Rows(s)[1..] ==>
              && (r.section in {"counts_by_behavior", "durations_by_behavior", "heatmap_meta"} ==> r.subKey == Text(""))
              && (r.section in {"trendlines", "heatmap"} ==> r.subKey.Num?)
  {
    var c := FlatRows("counts_by_behavior", s.counts);
    var d := FlatRows("durations_by_behavior", s.durations);
    var t := NestedRows("trendlines", s.trendlines);
    var h := NestedRows("heatmap", s.heatmap);
    var m := MetaRows(s.meta);
    RowsBlocks(s);
    NestedRowsShape("trendlines", s.trendlines);
    NestedRowsShape("heatmap", s.heatmap);
    assert Rows(s)[1..] == c + d + t + h + m;
    forall r | r in Rows(s)[1..]
      ensures r.section in {"counts_by_behavior", "durations_by_behavior", "heatmap_meta"} ==> r.subKey == Text("")
      ensures r.section in {"trendlines", "heatmap"} ==> r.subKey.Num?
    {
      assert r in c || r in d || r in t || r in h || r in m;
      if r in t || r in h {
        assert r.subKey.Num?;
        assert r.section !in {"counts_by_behavior", "durations_by_behavior", "heatmap_meta"};
      } else {
        assert r.subKey == Text("");
      }
    }
  }

  /** One row for the header and one per count, duration, trendline point, heatmap cell and metadata entry. */
  lemma RowsCount(s: AnalyticsSummary)
    ensures |Rows(s)| == 1 + |s.counts| + |s.durations| + PointTotal(s.trendlines) + PointTotal(s.heatmap) + |s.meta|
  {
    NestedRowsShape("trendlines", s.trendlines);
    NestedRowsShape("heatmap", s.heatmap);
  }

  /** The block of rows a section name selects; other names, the header's included, select none. */
  function Block(s: AnalyticsSummary, section: string): seq<Row> {
    if section == "counts_by_behavior" then FlatRows(section, s.counts)
    else if section == "durations_by_behavior" then FlatRows(section, s.durations)
    else if section == "trendlines" then NestedRows(section, s.trendlines)
    else if section == "heatmap" then NestedRows(section, s.heatmap)
    else if section == "heatmap_meta" then MetaRows(s.meta)
    else []
  }

  /**
   * A row of the export is the header or a row of the block its own section
   * names, and it lies in no other block: the five blocks do not overlap.
   */
  lemma RowsMembers(s: AnalyticsSummary, r: Row)
    ensures r in Rows(s) <==> r == Header || r in Block(s, r.section)
    ensures forall section :: r in Block(s, section) ==> section == r.section
    ensures r in Rows(s) && r != Header ==> 1 <= SectionRank(r.section) <= 5
  {
    RowsBlocks(s);
  }

  /** In a well-formed dict, a key's points are the points stored under it. */
  lemma NestedGet(d: Dict<string, seq<Point>>, k: string, q: Point)
    requires Wf(d)
    ensures (exists pts :: (k, pts) in d && q in pts) <==> q in Get(d, k, [])
  {
    GetFound(d, k, []);
    if pts :| (k, pts) in d && q in pts {
      GetUnique(d, (k, pts), []);
    }
  }

  /** In a well-formed dict, an entry is present exactly when its key maps to its value. */
  lemma EntryGet(d: Dict<string, int>, k: string, v: int)
    requires Wf(d)
    ensures (k, v) in d <==> HasKey(d, k) && Get(d, k, 0) == v
  {
    GetFound(d, k, 0);
    if (k, v) in d {
      GetUnique(d, (k, v), 0);
      var i :| 0 <= i < |d| && d[i] == (k, v);
      KeysAt(d, i);
    }
  }

  /** The export summarises the report's sessions in auto scaling and ends with its four metadata rows. */
  lemma ExportUsesAuto(store: seq<Event>, report: Report)
    ensures var rows := ExportReportCsv(store, report);
            var s := ComputeSummary(store, report.sessions, "auto");
            && |s.meta| == 4
            && |rows| >= 5
            && rows[0] == Header
            && rows[|rows| - 4] == Row("heatmap_meta", "scaling", Text(""), Text("auto"))
            && rows[|rows| - 3] == Row("heatmap_meta", "min", Text(""), Text("0"))
            && rows[|rows| - 2] == Row("heatmap_meta", "max", Text(""), Text(s.meta[2].1))
            && rows[|rows| - 1] == Row("heatmap_meta", "palette", Text(""), Text("plasma"))
  {
    var s := ComputeSummary(store, report.sessions, "auto");
    HeatmapMetaAuto(store, report.sessions, "auto");
    var rows := Rows(s);
    var m := MetaRows(s.meta);
    assert rows == rows[..|rows| - 4] + m;
  }

  /** A count row is written for each behaviour of the report's sessions, with its number of events. */
  lemma ExportCounts(store: seq<Event>, report: Report, b: string, c: int)
    ensures var evs := EventsForSessions(store, report.sessions);
            Row("counts_by_behavior", b, Text(""), Num(c)) in ExportReportCsv(store, report)
            <==> c >= 1 && c == |Select(evs, BehaviorOf, b)|
  {
    var evs := EventsForSessions(store, report.sessions);
    var s := ComputeSummary(store, report.sessions, "auto");
    RowsMembers(s, Row("counts_by_behavior", b, Text(""), Num(c)));
    RowsBlocks(s);
    FlatRowsMembers("counts_by_behavior", s.counts, b, c);
    CountTallyMembers(evs, BehaviorOf);
    assert (b, c) in s.counts <==> c >= 1 && c == |Select(evs, BehaviorOf, b)|;
  }

  /** A duration row is written for each behaviour of the report's sessions, with its summed duration. */
  lemma ExportDurations(store: seq<Event>, report: Report, b: string, v: int)
    ensures var evs := EventsForSessions(store, report.sessions);
            Row("durations_by_behavior", b, Text(""), Num(v)) in ExportReportCsv(store, report)
            <==> Select(evs, BehaviorOf, b) != [] && v == SumW(Select(evs, BehaviorOf, b), DurationOf)
  {
    var evs := EventsForSessions(store, report.sessions);
    var s := ComputeSummary(store, report.sessions, "auto");
    RowsMembers(s, Row("durations_by_behavior", b, Text(""), Num(v)));
    RowsBlocks(s);
    FlatRowsMembers("durations_by_behavior", s.durations, b, v);
    SummaryDurations(store, report.sessions, "auto", b);
    TallyHasKey(evs, BehaviorOf, DurationOf, b);
    EntryGet(s.durations, b, v);
  }

  /** A trendline row is written for each minute in which a behaviour starts, with its number of events. */
  lemma ExportTrendlines(store: seq<Event>, report: Report, b: string, minute: int, c: int)
    ensures var evs := EventsForSessions(store, report.sessions);
            Row("trendlines", b, Num(minute), Num(c)) in ExportReportCsv(store, report)
            <==> c >= 1 && c == |Select(Select(evs, BehaviorOf, b), StartBucket, minute)|
  {
    var s := ComputeSummary(store, report.sessions, "auto");
    RowsMembers(s, Row("trendlines", b, Num(minute), Num(c)));
    RowsBlocks(s);
    NestedRowsMembers("trendlines", s.trendlines, b, minute, c);
    SummaryCounts(store, report.sessions, "auto", b);
    SummarySameKeys(store, report.sessions, "auto");
    NestedGet(s.trendlines, b, (minute, c));
    SummaryTrendline(store, report.sessions, "auto", b);
  }

  /** A heatmap row is written for each minute in which a camera saw an event start, with its number of events. */
  lemma ExportHeatmap(store: seq<Event>, report: Report, cam: string, minute: int, c: int)
    ensures var evs := EventsForSessions(store, report.sessions);
            Row("heatmap", cam, Num(minute), Num(c)) in ExportReportCsv(store, report)
            <==> c >= 1 && c == |Select(Select(evs, CameraOf, cam), StartBucket, minute)|
  {
    var evs := EventsForSessions(store, report.sessions);
    var s := ComputeSummary(store, report.sessions, "auto");
    var row := Row("heatmap", cam, Num(minute), Num(c));
    assert row in ExportReportCsv(store, report) <==> row in NestedRows("heatmap", s.heatmap) by {
      RowsMembers(s, row);
    }
    assert row in NestedRows("heatmap", s.heatmap) <==> (minute, c) in Get(s.heatmap, cam, []) by {
      NestedRowsMembers("heatmap", s.heatmap, cam, minute, c);
      GridKeys(evs, CameraOf, StartBucket);
      NestedGet(s.heatmap, cam, (minute, c));
    }
    SummaryHeatmap(store, report.sessions, "auto", cam);
  }

  /** Where a row sits in the file's grouping: its section and its key. */
  function Place(r: Row): (string, string) {
    (r.section, r.key)
  }

  /** The rows of one section and key, in file order. */
  function RowsFor(rows: seq<Row>, section: string, key: string): seq<Row> {
    Select(rows, Place, (section, key))
  }

  /** Rows that all carry the section and key are kept whole; rows of another section or key are all dropped. */
  lemma RowsForBlock(rows: seq<Row>, section: string, key: string)
    ensures (forall r :: r in rows ==> r.section == section && r.key == key) ==> RowsFor(rows, section, key) == rows
    ensures (forall r :: r in rows ==> r.section != section || r.key != key) ==> RowsFor(rows, section, key) == []
  {
    SelectMembers(rows, Place, (section, key));
    if forall r :: r in rows ==> r.section == section && r.key == key {
      SelectAll(rows, Place, (section, key));
    }
    if forall r :: r in rows ==> r.section != section || r.key != key {
      var sel := RowsFor(rows, section, key);
      if sel != [] {
        assert sel[0] in sel;
      }
    }
  }

  /** In a well-formed dict, the nested rows of one key are that key's points, in their order. */
  lemma {:induction false} NestedRowsFor(section: string, d: Dict<string, seq<Point>>, k: string)
    requires Wf(d)
    ensures RowsFor(NestedRows(section, d), section, k) == PointRows(section, k, Get(d, k, []))
  {
    if d == [] {
      assert PointRows(section, k, []) == [];
    } else {
      WfTail(d);
      var here := PointRows(section, d[0].0, d[0].1);
      SelectAppend(here, NestedRows(section, d[1..]), Place, (section, k));
      NestedRowsFor(section, d[1..], k);
      if d[0].0 == k {
        RowsForBlock(here, section, k);
        GetFound(d[1..], k, []);
        assert PointRows(section, k, []) == [];
      } else {
        RowsForBlock(here, section, k);
      }
    }
  }

  /** Of all the rows written for a summary, the trendline rows of a key are those of the trendlines block. */
  lemma TrendlineRowsFor(s: AnalyticsSummary, b: string)
    ensures RowsFor(Rows(s), "trendlines", b) == RowsFor(NestedRows("trendlines", s.trendlines), "trendlines", b)
  {
    var c := FlatRows("counts_by_behavior", s.counts);
    var d := FlatRows("durations_by_behavior", s.durations);
    var tr := NestedRows("trendlines", s.trendlines);
    var h := NestedRows("heatmap", s.heatmap);
    var m := MetaRows(s.meta);
    RowsBlocks(s);
    SelectAppend([Header] + c + d + tr + h, m, Place, ("trendlines", b));
    SelectAppend([Header] + c + d + tr, h, Place, ("trendlines", b));
    SelectAppend([Header] + c + d, tr, Place, ("trendlines", b));
    SelectAppend([Header] + c, d, Place, ("trendlines", b));
    SelectAppend([Header], c, Place, ("trendlines", b));
    RowsForBlock([Header], "trendlines", b);
    RowsForBlock(c, "trendlines", b);
    RowsForBlock(d, "trendlines", b);
    RowsForBlock(h, "trendlines", b);
    RowsForBlock(m, "trendlines", b);
  }

  /** The rows of a series with strictly ascending minutes have strictly ascending minute sub-keys. */
  lemma PointRowsAscend(section: string, key: string, pts: seq<Point>)
    requires StrictlyAscending(pts)
    ensures var rows := PointRows(section, key, pts);
            forall i, j :: 0 <= i < j < |rows| ==>
              rows[i].subKey.Num? && rows[j].subKey.Num? && rows[i].subKey.n < rows[j].subKey.n
  {
  }

  /**
   * A behaviour's trendline rows appear in the order of its trendline:
   * they are its sorted series written point by point, so their minutes
   * strictly ascend down the file.
   */
  lemma ExportTrendlineOrder(store: seq<Event>, report: Report, b: string)
    ensures var s := ComputeSummary(store, report.sessions, "auto");
            var rows := RowsFor(ExportReportCsv(store, report), "trendlines", b);
            && rows == PointRows("trendlines", b, Get(s.trendlines, b, []))
            && (forall i, j :: 0 <= i < j < |rows| ==>
                  rows[i].subKey.Num? && rows[j].subKey.Num? && rows[i].subKey.n < rows[j].subKey.n)
  {
    var s := ComputeSummary(store, report.sessions, "auto");
    TrendlineRowsFor(s, b);
    SummaryCounts(store, report.sessions, "auto", b);
    SummarySameKeys(store, report.sessions, "auto");
    NestedRowsFor("trendlines", s.trendlines, b);
    SummaryTrendline(store, report.sessions, "auto", b);
    PointRowsAscend("trendlines", b, Get(s.trendlines, b, []));
  }

  /**
   * The export has one row for the header, two per behaviour (its count
   * and its duration), one per trendline point, one per heatmap cell and
   * four of metadata.
   */
  lemma ExportRowCount(store: seq<Event>, report: Report)
    ensures var evs := EventsForSessions(store, report.sessions);
            var s := ComputeSummary(store, report.sessions, "auto");
            |ExportReportCsv(store, report)|
            == 1 + 2 * |Distinct(MapSeq(evs, BehaviorOf))| + PointTotal(s.trendlines) + PointTotal(s.heatmap) + 4
  {
    var s := ComputeSummary(store, report.sessions, "auto");
    RowsCount(s);
    SummarySameKeys(store, report.sessions, "auto");
    HeatmapMetaAuto(store, report.sessions, "auto");
  }
}
